// The binary format of a Markov chain: what is written, what is read back, and what
// the loader makes of any other bytes.
module MarkovFormat {
  import opened Records
  import opened Markov
  import opened HashText

  // A symbol and the eight bytes of its probability.
  datatype Item = Item(symbol: Symbol, bits: U64)
  datatype Entry = Entry(symbol: Symbol, items: seq<Item>)

  const HEADER: seq<Byte> := [0x4D, 0x52, 0x4B, 0x56]
  const VERSION: Byte := 2
  const WORD: nat := 4
  const DOUBLE: nat := 8

  datatype Code =
    | OK
    | BAD_HEADER
    | BAD_HEADER_PREMATURE_EOF
    | BAD_VERSION
    | BAD_VERSION_PREMATURE_EOF
    | BAD_SYMBOL_COUNT_PREMATURE_EOF
    | BAD_SYMBOL
    | BAD_SYMBOL_PREMATURE_EOF
    | BAD_PROBABILITY_PREMATURE_EOF
    | BAD_NODE_COUNT_PREMATURE_EOF

  predicate Premature(c: Code) {
    || c.BAD_HEADER_PREMATURE_EOF?
    || c.BAD_VERSION_PREMATURE_EOF?
    || c.BAD_SYMBOL_COUNT_PREMATURE_EOF?
    || c.BAD_SYMBOL_PREMATURE_EOF?
    || c.BAD_PROBABILITY_PREMATURE_EOF?
    || c.BAD_NODE_COUNT_PREMATURE_EOF?
  }

  // --- writing ---

  function PrintItem(e: Item): (b: seq<Byte>)
    ensures |b| == 12
  {
    LittleEndian(e.symbol, WORD) + LittleEndian(e.bits, DOUBLE)
  }

  // Four bytes of the symbol, eight of the probability.
  lemma ItemBytes(e: Item, i: nat)
    ensures i < 4 ==> PrintItem(e)[i] == ShiftedBytes(e.symbol, i) % 256
    ensures i < 8 ==> PrintItem(e)[4 + i] == ShiftedBytes(e.bits, i) % 256
  {
    if i < 4 { LittleEndianBytes(e.symbol, WORD, i); }
    if i < 8 { LittleEndianBytes(e.bits, DOUBLE, i); }
  }

  function PrintItems(es: seq<Item>): seq<Byte> {
    if es == [] then [] else PrintItem(es[0]) + PrintItems(es[1..])
  }

  // Sizes are written as 32-bit numbers.
  function PrintSize(n: nat): (b: seq<Byte>)
    ensures |b| == 4
  {
    LittleEndian(n % TWO32, WORD)
  }

  lemma SizeBytes(n: nat, i: nat)
    requires i < 4
    ensures PrintSize(n)[i] == ShiftedBytes(n % 0x1_0000_0000, i) % 256
  {
    LittleEndianBytes(n % TWO32, WORD, i);
  }

  function PrintList(es: seq<Item>): seq<Byte> { PrintSize(|es|) + PrintItems(es) }

  function PrintNode(n: Entry): seq<Byte> { LittleEndian(n.symbol, WORD) + PrintList(n.items) }

  function PrintNodes(ns: seq<Entry>): seq<Byte> {
    if ns == [] then [] else PrintNode(ns[0]) + PrintNodes(ns[1..])
  }

  function PrintLists(first: seq<Item>, ns: seq<Entry>): seq<Byte> {
    PrintList(first) + (PrintSize(|ns|) + PrintNodes(ns))
  }

  function PrintChain(first: seq<Item>, ns: seq<Entry>): seq<Byte> {
    HEADER + [VERSION] + PrintLists(first, ns)
  }

  // --- reading ---

  // None at a premature end.
  function ReadU32(b: seq<Byte>): (r: Option<Symbol>)
    ensures r.Some? <==> 4 <= |b|
  {
    assert Pow256(4) == TWO32;
    if |b| < 4 then None else FromLittleEndianBound(b[..4]); Some(FromLittleEndian(b[..4]))
  }

  function ReadU64(b: seq<Byte>): (r: Option<U64>)
    ensures r.Some? <==> 8 <= |b|
  {
    assert Pow256(8) == TWO64;
    if |b| < 8 then None else FromLittleEndianBound(b[..8]); Some(FromLittleEndian(b[..8]))
  }

  // What was read up to an end or an error, and the bytes not yet read.
  datatype Read<T> = Read(code: Code, got: seq<T>, rest: seq<Byte>)

  function ReadItems(b: seq<Byte>, n: nat, got: seq<Item>): Read<Item>
    decreases n
  {
    if n == 0 then Read(OK, got, b)
    else if ReadU32(b).None? then Read(BAD_SYMBOL_PREMATURE_EOF, got, [])
    else if ReadU64(b[4..]).None? then Read(BAD_PROBABILITY_PREMATURE_EOF, got, [])
    else ReadItems(b[12..], n - 1, got + [Item(ReadU32(b).value, ReadU64(b[4..]).value)])
  }

  // What follows the symbol of a node.
  function ReadRow(b: seq<Byte>, c: Symbol): (r: Read<Entry>)
    ensures |r.got| == 1 && r.got[0].symbol == c
  {
    if ReadU32(b).None? then Read(BAD_NODE_COUNT_PREMATURE_EOF, [Entry(c, [])], [])
    else
      var r := ReadItems(b[4..], ReadU32(b).value, []);
      Read(r.code, [Entry(c, r.got)], r.rest)
  }

  // One node, if its symbol is new.
  function ReadNode(b: seq<Byte>, known: set<Symbol>): (r: Read<Entry>)
    ensures |r.got| <= 1
    ensures r.code == OK ==> |r.got| == 1 && r.got[0].symbol !in known
  {
    if ReadU32(b).None? then Read(BAD_SYMBOL_PREMATURE_EOF, [], [])
    else if ReadU32(b).value in known then Read(BAD_SYMBOL, [], b[4..])
    else ReadRow(b[4..], ReadU32(b).value)
  }

  function ReadNodes(b: seq<Byte>, n: nat, known: set<Symbol>, got: seq<Entry>): Read<Entry>
    decreases n, 1
  {
    if n == 0 then Read(OK, got, b) else ReadFirst(b, n, known, got)
  }

  // The first of n nodes, and the others behind it.
  function ReadFirst(b: seq<Byte>, n: nat, known: set<Symbol>, got: seq<Entry>): Read<Entry>
    requires n > 0
    decreases n, 0
  {
    var r := ReadNode(b, known);
    if r.code != OK then Read(r.code, got + r.got, r.rest)
    else ReadNodes(r.rest, n - 1, known + {r.got[0].symbol}, got + r.got)
  }

  datatype Loaded = Loaded(code: Code, first: seq<Item>, nodes: seq<Entry>, rest: seq<Byte>)

  // known: the symbols of the nodes that are already there.
  function Load(b: seq<Byte>, known: set<Symbol>): Loaded {
    if |b| < 4 then Loaded(BAD_HEADER_PREMATURE_EOF, [], [], [])
    else if b[..4] != HEADER then Loaded(BAD_HEADER, [], [], b[4..])
    else if |b| < 5 then Loaded(BAD_VERSION_PREMATURE_EOF, [], [], [])
    else if b[4] != VERSION then Loaded(BAD_VERSION, [], [], b[5..])
    else LoadLists(b[5..], known)
  }

  function LoadLists(b: seq<Byte>, known: set<Symbol>): Loaded {
    if ReadU32(b).None? then Loaded(BAD_SYMBOL_COUNT_PREMATURE_EOF, [], [], [])
    else
      var f := ReadItems(b[4..], ReadU32(b).value, []);
      if f.code != OK then Loaded(f.code, f.got, [], f.rest)
      else if ReadU32(f.rest).None? then Loaded(BAD_SYMBOL_COUNT_PREMATURE_EOF, f.got, [], [])
      else
        var n := ReadNodes(f.rest[4..], ReadU32(f.rest).value, known, []);
        Loaded(n.code, f.got, n.got, n.rest)
  }

  lemma {:induction false} PrintItemsSnoc(es: seq<Item>, e: Item)
    ensures PrintItems(es + [e]) == PrintItems(es) + PrintItem(e)
  {
    if es == [] {
      assert es + [e] == [e] && [e][1..] == [];
      assert PrintItem(e) + [] == PrintItem(e) && [] + PrintItem(e) == PrintItem(e);
    } else {
      PrintItemsSnoc(es[1..], e);
      assert (es + [e])[1..] == es[1..] + [e];
      Regroup(PrintItem(es[0]), PrintItems(es[1..]), PrintItem(e));
    }
  }

  lemma {:induction false} PrintNodesSnoc(ns: seq<Entry>, n: Entry)
    ensures PrintNodes(ns + [n]) == PrintNodes(ns) + PrintNode(n)
  {
    if ns == [] {
      assert ns + [n] == [n] && [n][1..] == [];
      assert PrintNode(n) + [] == PrintNode(n) && [] + PrintNode(n) == PrintNode(n);
    } else {
      PrintNodesSnoc(ns[1..], n);
      assert (ns + [n])[1..] == ns[1..] + [n];
      Regroup(PrintNode(ns[0]), PrintNodes(ns[1..]), PrintNode(n));
    }
  }

  // --- reading what was written ---

  ghost predicate Fits(first: seq<Item>, ns: seq<Entry>) {
    && |first| < TWO32 && |ns| < TWO32
    && forall i :: 0 <= i < |ns| ==> |ns[i].items| < TWO32
  }

  ghost predicate Fresh(ns: seq<Entry>, known: set<Symbol>) {
    && (forall i :: 0 <= i < |ns| ==> ns[i].symbol !in known)
    && forall i, j :: 0 <= i < j < |ns| ==> ns[i].symbol != ns[j].symbol
  }

  lemma ReadU32Printed(x: U32, rest: seq<Byte>)
    ensures ReadU32(LittleEndian(x, WORD) + rest) == Some(x)
    ensures (LittleEndian(x, WORD) + rest)[4..] == rest
  {
    assert Pow256(4) == TWO32;
    LittleEndianInverse(x, 4);
    assert (LittleEndian(x, WORD) + rest)[..4] == LittleEndian(x, WORD);
  }

  lemma ReadU64Printed(x: U64, rest: seq<Byte>)
    ensures ReadU64(LittleEndian(x, DOUBLE) + rest) == Some(x)
    ensures (LittleEndian(x, DOUBLE) + rest)[8..] == rest
  {
    assert Pow256(8) == TWO64;
    LittleEndianInverse(x, 8);
    assert (LittleEndian(x, DOUBLE) + rest)[..8] == LittleEndian(x, DOUBLE);
  }

  lemma ReadItemPrinted(e: Item, rest: seq<Byte>)
    ensures ReadU32(PrintItem(e) + rest) == Some(e.symbol)
    ensures ReadU64((PrintItem(e) + rest)[4..]) == Some(e.bits)
    ensures (PrintItem(e) + rest)[12..] == rest
  {
    var tail := LittleEndian(e.bits, DOUBLE) + rest;
    assert PrintItem(e) + rest == LittleEndian(e.symbol, WORD) + tail;
    ReadU32Printed(e.symbol, tail);
    ReadU64Printed(e.bits, rest);
  }

  lemma {:induction false} ReadItemsPrinted(es: seq<Item>, rest: seq<Byte>, got: seq<Item>)
    ensures ReadItems(PrintItems(es) + rest, |es|, got) == Read(OK, got + es, rest)
    decreases |es|
  {
    if es == [] {
      assert PrintItems(es) + rest == rest && got + es == got;
    } else {
      var tail := PrintItems(es[1..]) + rest;
      assert PrintItems(es) + rest == PrintItem(es[0]) + tail;
      ReadItemPrinted(es[0], tail);
      ReadItemsPrinted(es[1..], rest, got + [es[0]]);
      assert got + [es[0]] + es[1..] == got + es;
    }
  }

  lemma Regroup(a: seq<Byte>, b: seq<Byte>, c: seq<Byte>)
    ensures (a + b) + c == a + (b + c)
  {
  }

  lemma ReadSizePrinted(n: nat, rest: seq<Byte>)
    requires n < TWO32
    ensures ReadU32(PrintSize(n) + rest) == Some(n)
    ensures (PrintSize(n) + rest)[4..] == rest
  {
    ReadU32Printed(n, rest);
  }

  lemma ReadListPrinted(es: seq<Item>, rest: seq<Byte>)
    requires |es| < TWO32
    ensures ReadU32(PrintList(es) + rest) == Some(|es|)
    ensures ReadItems((PrintList(es) + rest)[4..], |es|, []) == Read(OK, es, rest)
  {
    var tail := PrintItems(es) + rest;
    Regroup(PrintSize(|es|), PrintItems(es), rest);
    ReadSizePrinted(|es|, tail);
    ReadItemsPrinted(es, rest, []);
    assert [] + es == es;
  }

  lemma ReadNodePrinted(n: Entry, rest: seq<Byte>, known: set<Symbol>)
    requires |n.items| < TWO32 && n.symbol !in known
    ensures ReadNode(PrintNode(n) + rest, known) == Read(OK, [n], rest)
  {
    var b, tail := PrintNode(n) + rest, PrintList(n.items) + rest;
    Regroup(LittleEndian(n.symbol, WORD), PrintList(n.items), rest);
    ReadU32Printed(n.symbol, tail);
    ReadListPrinted(n.items, rest);
  }

  lemma SplitFirst<T>(a: seq<T>, b: seq<T>)
    requires b != []
    ensures a + [b[0]] + b[1..] == a + b
  {
  }

  lemma {:induction false} ReadNodesPrinted(ns: seq<Entry>, rest: seq<Byte>, known: set<Symbol>, got: seq<Entry>)
    requires Fits([], ns) && Fresh(ns, known)
    ensures ReadNodes(PrintNodes(ns) + rest, |ns|, known, got) == Read(OK, got + ns, rest)
    decreases |ns|
  {
    if ns == [] {
      assert PrintNodes(ns) + rest == rest && got + ns == got;
    } else {
      var tail := PrintNodes(ns[1..]) + rest;
      Regroup(PrintNode(ns[0]), PrintNodes(ns[1..]), rest);
      ReadNodePrinted(ns[0], tail, known);
      ReadNodesPrinted(ns[1..], rest, known + {ns[0].symbol}, got + [ns[0]]);
      SplitFirst(got, ns);
    }
  }

  lemma ReadListsPrinted(first: seq<Item>, ns: seq<Entry>, rest: seq<Byte>, known: set<Symbol>)
    requires Fits(first, ns) && Fresh(ns, known)
    ensures LoadLists(PrintLists(first, ns) + rest, known) == Loaded(OK, first, ns, rest)
  {
    var nodes := PrintNodes(ns) + rest;
    var tail := PrintSize(|ns|) + nodes;
    Regroup(PrintSize(|ns|), PrintNodes(ns), rest);
    Regroup(PrintList(first), PrintSize(|ns|) + PrintNodes(ns), rest);
    ReadListPrinted(first, tail);
    ReadSizePrinted(|ns|, nodes);
    ReadNodesPrinted(ns, rest, known, []);
    assert [] + ns == ns;
  }

  lemma LoadPrinted(first: seq<Item>, ns: seq<Entry>, rest: seq<Byte>, known: set<Symbol>)
    requires Fits(first, ns) && Fresh(ns, known)
    ensures Load(PrintChain(first, ns) + rest, known) == Loaded(OK, first, ns, rest)
  {
    var lists := PrintLists(first, ns);
    LoadStart(lists + rest, known);
    Regroup(HEADER + [VERSION], lists, rest);
    ReadListsPrinted(first, ns, rest, known);
  }

  lemma LoadStart(b: seq<Byte>, known: set<Symbol>)
    ensures Load(HEADER + [VERSION] + b, known) == LoadLists(b, known)
  {
    var c := HEADER + [VERSION] + b;
    assert c[..4] == HEADER && c[4] == VERSION && c[5..] == b;
  }

  // --- what is read was written ---

  lemma {:induction false} LittleEndianOf(b: seq<Byte>, n: nat)
    requires n == |b|
    ensures LittleEndian(FromLittleEndian(b), n) == b
  {
    if b != [] {
      var low, high := b[0], FromLittleEndian(b[1..]);
      LittleEndianOf(b[1..], n - 1);
      LowByte(low, high);
      assert b == [low] + b[1..];
    }
  }

  lemma LowByte(low: Byte, high: nat)
    ensures (low + 256 * high) % 256 == low && (low + 256 * high) / 256 == high
  {
  }

  lemma ReadU32Prints(b: seq<Byte>)
    requires 4 <= |b|
    ensures b == LittleEndian(ReadU32(b).value, WORD) + b[4..]
  {
    LittleEndianOf(b[..4], 4);
  }

  lemma ReadSizePrints(b: seq<Byte>, n: nat)
    requires 4 <= |b| && ReadU32(b).value == n
    ensures b == PrintSize(n) + b[4..]
  {
    ReadU32Prints(b);
  }

  lemma ReadU64Prints(b: seq<Byte>)
    requires 8 <= |b|
    ensures b == LittleEndian(ReadU64(b).value, DOUBLE) + b[8..]
  {
    LittleEndianOf(b[..8], 8);
  }

  lemma ReadItemPrints(b: seq<Byte>)
    requires 12 <= |b|
    ensures b == PrintItem(Item(ReadU32(b).value, ReadU64(b[4..]).value)) + b[12..]
  {
    ReadU32Prints(b);
    ReadU64Prints(b[4..]);
    assert b[4..][8..] == b[12..];
  }

  lemma {:induction false} ReadItemsPrints(b: seq<Byte>, n: nat, got: seq<Item>) returns (es: seq<Item>)
    requires ReadItems(b, n, got).code == OK
    ensures |es| == n && ReadItems(b, n, got).got == got + es
    ensures b == PrintItems(es) + ReadItems(b, n, got).rest
    decreases n
  {
    if n == 0 {
      es := [];
    } else {
      var e := Item(ReadU32(b).value, ReadU64(b[4..]).value);
      var more := ReadItemsPrints(b[12..], n - 1, got + [e]);
      es := [e] + more;
      ReadItemPrints(b);
      assert got + es == got + [e] + more;
      assert es[1..] == more;
    }
  }

  lemma ReadNodePrints(b: seq<Byte>, known: set<Symbol>)
    requires ReadNode(b, known).code == OK
    ensures var r := ReadNode(b, known);
            b == PrintNode(r.got[0]) + r.rest && |r.got[0].items| < TWO32
  {
    var size := ReadU32(b[4..]).value;
    var r, e := ReadItems(b[4..][4..], size, []), ReadNode(b, known).got[0];
    var items := ReadItemsPrints(b[4..][4..], size, []);
    assert e.items == items;
    ReadListPrints(b[4..], items, r.rest);
    ReadU32Prints(b);
    Regroup(LittleEndian(e.symbol, WORD), PrintList(e.items), r.rest);
  }

  lemma ReadListPrints(b: seq<Byte>, es: seq<Item>, rest: seq<Byte>)
    requires 4 <= |b| && ReadU32(b).value == |es|
    requires b[4..] == PrintItems(es) + rest
    ensures b == PrintList(es) + rest
  {
    assert b == PrintSize(|es|) + b[4..] by { ReadSizePrints(b, |es|); }
    Regroup(PrintSize(|es|), PrintItems(es), rest);
  }

  lemma NodesJoin(e: Entry, more: seq<Entry>, b: seq<Byte>, mid: seq<Byte>, rest: seq<Byte>)
    requires b == PrintNode(e) + mid && mid == PrintNodes(more) + rest
    ensures b == PrintNodes([e] + more) + rest
  {
    Regroup(PrintNode(e), PrintNodes(more), rest);
    assert ([e] + more)[1..] == more;
  }

  lemma FreshJoin(e: Entry, more: seq<Entry>, known: set<Symbol>)
    requires e.symbol !in known && Fresh(more, known + {e.symbol})
    ensures Fresh([e] + more, known)
  {
  }

  lemma {:induction false} ReadNodesPrints(b: seq<Byte>, n: nat, known: set<Symbol>, got: seq<Entry>) returns (ns: seq<Entry>)
    requires ReadNodes(b, n, known, got).code == OK
    ensures |ns| == n && ReadNodes(b, n, known, got).got == got + ns
    ensures b == PrintNodes(ns) + ReadNodes(b, n, known, got).rest
    ensures Fresh(ns, known) && forall i :: 0 <= i < |ns| ==> |ns[i].items| < TWO32
    decreases n
  {
    if n == 0 {
      ns := [];
    } else {
      var r := ReadNode(b, known);
      var e := r.got[0];
      var more := ReadNodesPrints(r.rest, n - 1, known + {e.symbol}, got + [e]);
      ns := [e] + more;
      SplitFirst(got, ns);
      ReadNodePrints(b, known);
      NodesJoin(e, more, b, r.rest, ReadNodes(r.rest, n - 1, known + {e.symbol}, got + [e]).rest);
      FreshJoin(e, more, known);
    }
  }

  lemma ListsJoin(first: seq<Item>, ns: seq<Entry>, b: seq<Byte>, f: seq<Byte>, g: seq<Byte>, rest: seq<Byte>)
    requires b == PrintList(first) + f && f == PrintSize(|ns|) + g && g == PrintNodes(ns) + rest
    ensures b == PrintLists(first, ns) + rest
  {
    Regroup(PrintSize(|ns|), PrintNodes(ns), rest);
    Regroup(PrintList(first), PrintSize(|ns|) + PrintNodes(ns), rest);
  }

  lemma ListsPrint(b: seq<Byte>, known: set<Symbol>)
    requires LoadLists(b, known).code == OK
    ensures var l := LoadLists(b, known);
            && b == PrintLists(l.first, l.nodes) + l.rest
            && Fits(l.first, l.nodes) && Fresh(l.nodes, known)
  {
    var l := LoadLists(b, known);
    var first := ReadItemsPrints(b[4..], ReadU32(b).value, []);
    var f := ReadItems(b[4..], ReadU32(b).value, []).rest;
    var ns := ReadNodesPrints(f[4..], ReadU32(f).value, known, []);
    assert l.first == first && l.nodes == ns;
    assert b == PrintList(first) + f by { ReadListPrints(b, first, f); }
    assert f == PrintSize(|ns|) + f[4..] by { ReadSizePrints(f, |ns|); }
    ListsJoin(first, ns, b, f, f[4..], l.rest);
  }

  lemma LoadedPrints(b: seq<Byte>, known: set<Symbol>)
    requires Load(b, known).code == OK
    ensures var l := Load(b, known);
            && b == PrintChain(l.first, l.nodes) + l.rest
            && Fits(l.first, l.nodes) && Fresh(l.nodes, known)
  {
    var l := Load(b, known);
    ListsPrint(b[5..], known);
    assert b == HEADER + [VERSION] + b[5..];
    Regroup(HEADER + [VERSION], PrintLists(l.first, l.nodes), l.rest);
  }

  // The loader accepts exactly what the chain writes, with any bytes behind it.
  lemma AcceptsIff(b: seq<Byte>, known: set<Symbol>, first: seq<Item>, ns: seq<Entry>, rest: seq<Byte>)
    ensures Load(b, known) == Loaded(OK, first, ns, rest) <==>
            b == PrintChain(first, ns) + rest && Fits(first, ns) && Fresh(ns, known)
  {
    if Load(b, known) == Loaded(OK, first, ns, rest) { LoadedPrints(b, known); }
    if b == PrintChain(first, ns) + rest && Fits(first, ns) && Fresh(ns, known) {
      LoadPrinted(first, ns, rest, known);
    }
  }

  // --- truncated files ---

  lemma {:induction false} ItemsCut(b: seq<Byte>, k: nat, n: nat, got: seq<Item>)
    requires k <= |b| && ReadItems(b, n, got).code == OK
    ensures |ReadItems(b, n, got).rest| <= |b|
    ensures var rest := ReadItems(b, n, got).rest;
            var cut := ReadItems(b[..k], n, got);
            if |b| - |rest| <= k
            then cut == Read(OK, ReadItems(b, n, got).got, rest[..k - (|b| - |rest|)])
            else Premature(cut.code)
    decreases n
  {
    if n > 0 {
      var next := got + [Item(ReadU32(b).value, ReadU64(b[4..]).value)];
      ItemsCut(b[12..], if k < 12 then 0 else k - 12, n - 1, next);
      if k >= 12 {
        assert b[..k][..4] == b[..4] && b[..k][4..][..8] == b[4..][..8];
        assert b[..k][12..] == b[12..][..k - 12];
      }
    }
  }

  lemma RowCut(b: seq<Byte>, k: nat, c: Symbol)
    requires k <= |b| && ReadRow(b, c).code == OK
    ensures |ReadRow(b, c).rest| <= |b|
    ensures var rest := ReadRow(b, c).rest;
            var cut := ReadRow(b[..k], c);
            if |b| - |rest| <= k
            then cut == Read(OK, ReadRow(b, c).got, rest[..k - (|b| - |rest|)])
            else Premature(cut.code)
  {
    ItemsCut(b[4..], if k < 4 then 0 else k - 4, ReadU32(b).value, []);
    if k >= 4 {
      assert b[..k][..4] == b[..4];
      assert b[..k][4..] == b[4..][..k - 4];
    }
  }

  lemma NodeCut(b: seq<Byte>, k: nat, known: set<Symbol>)
    requires k <= |b| && ReadNode(b, known).code == OK
    ensures |ReadNode(b, known).rest| <= |b|
    ensures var rest := ReadNode(b, known).rest;
            var cut := ReadNode(b[..k], known);
            if |b| - |rest| <= k
            then cut == Read(OK, ReadNode(b, known).got, rest[..k - (|b| - |rest|)])
            else Premature(cut.code)
  {
    RowCut(b[4..], if k < 4 then 0 else k - 4, ReadU32(b).value);
    if k >= 4 {
      assert b[..k][..4] == b[..4];
      assert b[..k][4..] == b[4..][..k - 4];
    }
  }

  lemma {:induction false} NodesCut(b: seq<Byte>, k: nat, n: nat, known: set<Symbol>, got: seq<Entry>)
    requires k <= |b| && ReadNodes(b, n, known, got).code == OK
    ensures |ReadNodes(b, n, known, got).rest| <= |b|
    ensures var rest := ReadNodes(b, n, known, got).rest;
            var cut := ReadNodes(b[..k], n, known, got);
            if |b| - |rest| <= k
            then cut == Read(OK, ReadNodes(b, n, known, got).got, rest[..k - (|b| - |rest|)])
            else Premature(cut.code)
    decreases n
  {
    if n > 0 {
      var r := ReadNode(b, known);
      NodeCut(b, k, known);
      var used := |b| - |r.rest|;
      if k < used {
        NodesCut(r.rest, 0, n - 1, known + {r.got[0].symbol}, got + r.got);
        assert Premature(ReadNodes(b[..k], n, known, got).code);
      } else {
        NodesCut(r.rest, k - used, n - 1, known + {r.got[0].symbol}, got + r.got);
        assert ReadNode(b[..k], known) == Read(OK, r.got, r.rest[..k - used]);
      }
    }
  }

  lemma LoadCut(b: seq<Byte>, k: nat, known: set<Symbol>)
    requires k <= |b| && Load(b, known).code == OK
    ensures var l := Load(b, known);
            |l.rest| <= |b| &&
            var cut := Load(b[..k], known);
            if |b| - |l.rest| <= k
            then cut == Loaded(OK, l.first, l.nodes, l.rest[..k - (|b| - |l.rest|)])
            else Premature(cut.code)
  {
    if k >= 4 { assert b[..k][..4] == b[..4]; }
    ListsCut(b[5..], if k < 5 then 0 else k - 5, known);
    if k >= 5 { assert b[..k][5..] == b[5..][..k - 5]; }
  }

  lemma ListsCut(b: seq<Byte>, k: nat, known: set<Symbol>)
    requires k <= |b| && LoadLists(b, known).code == OK
    ensures var l := LoadLists(b, known);
            |l.rest| <= |b| &&
            var cut := LoadLists(b[..k], known);
            if |b| - |l.rest| <= k
            then cut == Loaded(OK, l.first, l.nodes, l.rest[..k - (|b| - |l.rest|)])
            else Premature(cut.code)
  {
    var size := ReadU32(b).value;
    var f := ReadItems(b[4..], size, []);
    ItemsCut(b[4..], if k < 4 then 0 else k - 4, size, []);
    if k >= 4 {
      assert b[..k][..4] == b[..4];
      assert b[..k][4..] == b[4..][..k - 4];
    }
    var used := 4 + |b[4..]| - |f.rest|;
    var j := if k < used then 0 else k - used;
    NodesCut(f.rest[4..], if j < 4 then 0 else j - 4, ReadU32(f.rest).value, known, []);
    if j >= 4 {
      assert f.rest[..j][..4] == f.rest[..4];
      assert f.rest[..j][4..] == f.rest[4..][..j - 4];
    }
  }

  // Every proper prefix of a written file is rejected for its premature end.
  lemma PrefixRejected(first: seq<Item>, ns: seq<Entry>, known: set<Symbol>, k: nat)
    requires Fits(first, ns) && Fresh(ns, known) && k < |PrintChain(first, ns)|
    ensures Premature(Load(PrintChain(first, ns)[..k], known).code)
  {
    var b := PrintChain(first, ns);
    assert b + [] == b;
    LoadPrinted(first, ns, [], known);
    LoadCut(b, k, known);
  }
}
