// Which error code the loader returns for which bytes.
module MarkovCodes {
  import opened Records
  import opened Markov
  import opened HashText
  import opened MarkovFormat

  // --- header and version ---

  lemma HeaderCodes(b: seq<Byte>, known: set<Symbol>)
    ensures Load(b, known).code == BAD_HEADER_PREMATURE_EOF <==> |b| < 4
    ensures Load(b, known).code == BAD_HEADER <==> |b| >= 4 && b[..4] != [0x4D, 0x52, 0x4B, 0x56]
    ensures Load(b, known).code == BAD_VERSION_PREMATURE_EOF <==> b == [0x4D, 0x52, 0x4B, 0x56]
    ensures Load(b, known).code == BAD_VERSION <==>
            |b| >= 5 && b[..4] == [0x4D, 0x52, 0x4B, 0x56] && b[4] != 2
  {
    ListsCodes(if |b| < 5 then [] else b[5..], known);
    assert |b| == 4 && b[..4] == [0x4D, 0x52, 0x4B, 0x56] ==> b == [0x4D, 0x52, 0x4B, 0x56] by {
      assert |b| == 4 ==> b[..4] == b;
    }
  }

  // Behind header and version none of their codes is returned.
  lemma ListsCodes(c: seq<Byte>, known: set<Symbol>)
    ensures var code := LoadLists(c, known).code;
            && !code.BAD_HEADER? && !code.BAD_HEADER_PREMATURE_EOF?
            && !code.BAD_VERSION? && !code.BAD_VERSION_PREMATURE_EOF?
  {
    if ReadU32(c).Some? {
      var n := ReadU32(c).value;
      ItemsCodes(c[4..], n, []);
      var f := ReadItems(c[4..], n, []);
      if f.code == OK && ReadU32(f.rest).Some? {
        NodesCodes(f.rest[4..], ReadU32(f.rest).value, known, []);
      }
    }
  }

  lemma {:induction false} ItemsCodes(b: seq<Byte>, n: nat, got: seq<Item>)
    ensures var code := ReadItems(b, n, got).code;
            code.OK? || code.BAD_SYMBOL_PREMATURE_EOF? || code.BAD_PROBABILITY_PREMATURE_EOF?
    decreases n
  {
    if n > 0 && ReadU32(b).Some? && ReadU64(b[4..]).Some? {
      ItemsCodes(b[12..], n - 1, got + [Item(ReadU32(b).value, ReadU64(b[4..]).value)]);
    }
  }

  lemma {:induction false} NodesCodes(b: seq<Byte>, n: nat, known: set<Symbol>, got: seq<Entry>)
    ensures var code := ReadNodes(b, n, known, got).code;
            || code.OK? || code.BAD_SYMBOL? || code.BAD_SYMBOL_PREMATURE_EOF?
            || code.BAD_NODE_COUNT_PREMATURE_EOF? || code.BAD_PROBABILITY_PREMATURE_EOF?
    decreases n
  {
    if n > 0 {
      assert ReadNodes(b, n, known, got) == ReadFirst(b, n, known, got);
      var r := ReadNode(b, known);
      if ReadU32(b).Some? && ReadU32(b[4..]).Some? {
        ItemsCodes(b[4..][4..], ReadU32(b[4..]).value, []);
      }
      if r.code == OK { NodesCodes(r.rest, n - 1, known + {r.got[0].symbol}, got + r.got); }
    }
  }

  // --- where reading stops ---

  // t is what is left at the place where the loader stops: in the size of the first list,
  // behind some of its n items, in the number of nodes, or behind some of n nodes: in or
  // at a symbol, in the number of successors of c, or behind some of its m successors.
  datatype Stop =
    | FirstSize(t: seq<Byte>)
    | FirstItem(n: U32, es: seq<Item>, t: seq<Byte>)
    | NodeCount(first: seq<Item>, t: seq<Byte>)
    | NodeSymbol(first: seq<Item>, n: U32, ns: seq<Entry>, t: seq<Byte>)
    | KnownSymbol(first: seq<Item>, n: U32, ns: seq<Entry>, c: Symbol, t: seq<Byte>)
    | NodeSize(first: seq<Item>, n: U32, ns: seq<Entry>, c: Symbol, t: seq<Byte>)
    | NodeItem(first: seq<Item>, n: U32, ns: seq<Entry>, c: Symbol, m: U32, es: seq<Item>, t: seq<Byte>)

  ghost predicate Within(es: seq<Item>, n: nat, t: seq<Byte>) { |es| < n && |t| < 12 }

  ghost predicate Taken(ns: seq<Entry>, known: set<Symbol>, c: Symbol) {
    c in known || exists i :: 0 <= i < |ns| && ns[i].symbol == c
  }

  // Complete nodes with new symbols, fewer than there should be.
  ghost predicate Begun(first: seq<Item>, n: nat, ns: seq<Entry>, known: set<Symbol>) {
    Fits(first, ns) && Fresh(ns, known) && |ns| < n
  }

  // c, what follows header and version, stops so.
  ghost predicate StopsAt(c: seq<Byte>, known: set<Symbol>, s: Stop) {
    match s
    case FirstSize(t) => c == t && |t| < 4
    case FirstItem(n, es, t) => c == PrintSize(n) + (PrintItems(es) + t) && Within(es, n, t)
    case NodeCount(first, t) => |first| < TWO32 && c == PrintList(first) + t && |t| < 4
    case NodeSymbol(first, n, ns, t) =>
      Begun(first, n, ns, known) && c == PrintList(first) + (PrintSize(n) + (PrintNodes(ns) + t)) && |t| < 4
    case KnownSymbol(first, n, ns, x, t) =>
      Begun(first, n, ns, known) && Taken(ns, known, x)
      && c == PrintList(first) + (PrintSize(n) + (PrintNodes(ns) + (LittleEndian(x, WORD) + t)))
    case NodeSize(first, n, ns, x, t) =>
      Begun(first, n, ns, known) && !Taken(ns, known, x) && |t| < 4
      && c == PrintList(first) + (PrintSize(n) + (PrintNodes(ns) + (LittleEndian(x, WORD) + t)))
    case NodeItem(first, n, ns, x, m, es, t) =>
      Begun(first, n, ns, known) && !Taken(ns, known, x) && Within(es, m, t)
      && c == PrintList(first)
              + (PrintSize(n) + (PrintNodes(ns) + (LittleEndian(x, WORD) + (PrintSize(m) + (PrintItems(es) + t)))))
  }

  // --- what stopping there means ---

  lemma {:induction false} ItemsStop(es: seq<Item>, t: seq<Byte>, n: nat, got: seq<Item>)
    requires Within(es, n, t)
    ensures ReadItems(PrintItems(es) + t, n, got) ==
            Read(if |t| < 4 then BAD_SYMBOL_PREMATURE_EOF else BAD_PROBABILITY_PREMATURE_EOF, got + es, [])
    decreases |es|
  {
    if es == [] {
      assert PrintItems(es) + t == t && got + es == got;
    } else {
      var tail := PrintItems(es[1..]) + t;
      Regroup(PrintItem(es[0]), PrintItems(es[1..]), t);
      ReadItemPrinted(es[0], tail);
      ItemsStop(es[1..], t, n - 1, got + [es[0]]);
      SplitFirst(got, es);
    }
  }

  ghost function Symbols(ns: seq<Entry>): set<Symbol> {
    set i | 0 <= i < |ns| :: ns[i].symbol
  }

  lemma SymbolsCons(ns: seq<Entry>, known: set<Symbol>)
    requires ns != []
    ensures known + Symbols(ns) == known + {ns[0].symbol} + Symbols(ns[1..])
  {
    forall i | 0 <= i < |ns| ensures ns[i].symbol in {ns[0].symbol} + Symbols(ns[1..]) {
      if i > 0 { assert ns[i] == ns[1..][i - 1]; }
    }
  }

  lemma TakenIff(ns: seq<Entry>, known: set<Symbol>, c: Symbol)
    ensures c in known + Symbols(ns) <==> Taken(ns, known, c)
  {
  }

  lemma {:induction false} NodesSkip(ns: seq<Entry>, t: seq<Byte>, n: nat, known: set<Symbol>, got: seq<Entry>)
    requires Fits([], ns) && Fresh(ns, known) && |ns| <= n
    ensures ReadNodes(PrintNodes(ns) + t, n, known, got) == ReadNodes(t, n - |ns|, known + Symbols(ns), got + ns)
    decreases |ns|
  {
    if ns == [] {
      assert PrintNodes(ns) + t == t && got + ns == got && known + Symbols(ns) == known;
    } else {
      NodesSkip(ns[1..], t, n - 1, known + {ns[0].symbol}, got + [ns[0]]);
      NodesSkipStep(ns, t, n, known, got);
    }
  }

  lemma NodesSkipStep(ns: seq<Entry>, t: seq<Byte>, n: nat, known: set<Symbol>, got: seq<Entry>)
    requires ns != [] && Fits([], ns) && Fresh(ns, known) && |ns| <= n
    ensures ReadNodes(PrintNodes(ns) + t, n, known, got) ==
            ReadNodes(PrintNodes(ns[1..]) + t, n - 1, known + {ns[0].symbol}, got + [ns[0]])
    ensures known + {ns[0].symbol} + Symbols(ns[1..]) == known + Symbols(ns)
    ensures got + [ns[0]] + ns[1..] == got + ns
  {
    Regroup(PrintNode(ns[0]), PrintNodes(ns[1..]), t);
    NodeSkip(ns[0], PrintNodes(ns[1..]) + t, n, known, got);
    SplitFirst(got, ns);
    SymbolsCons(ns, known);
  }

  lemma NodeSkip(e: Entry, tail: seq<Byte>, n: nat, known: set<Symbol>, got: seq<Entry>)
    requires |e.items| < TWO32 && e.symbol !in known && n > 0
    ensures ReadNodes(PrintNode(e) + tail, n, known, got) == ReadNodes(tail, n - 1, known + {e.symbol}, got + [e])
  {
    ReadNodePrinted(e, tail, known);
    assert ReadNodes(PrintNode(e) + tail, n, known, got) == ReadFirst(PrintNode(e) + tail, n, known, got);
  }

  lemma NodesStop(ns: seq<Entry>, t: seq<Byte>, n: nat, known: set<Symbol>)
    requires Fits([], ns) && Fresh(ns, known) && |ns| < n
    requires ReadNode(t, known + Symbols(ns)).code != OK
    ensures var r := ReadNode(t, known + Symbols(ns));
            ReadNodes(PrintNodes(ns) + t, n, known, []) == Read(r.code, ns + r.got, r.rest)
  {
    NodesSkip(ns, t, n, known, []);
    assert [] + ns == ns;
    var all := known + Symbols(ns);
    assert ReadNodes(t, n - |ns|, all, ns) == ReadFirst(t, n - |ns|, all, ns);
  }

  lemma FirstRead(first: seq<Item>, n: U32, t: seq<Byte>, known: set<Symbol>)
    requires |first| < TWO32
    ensures var r := ReadNodes(t, n, known, []);
            LoadLists(PrintList(first) + (PrintSize(n) + t), known) == Loaded(r.code, first, r.got, r.rest)
  {
    ReadListPrinted(first, PrintSize(n) + t);
    ReadSizePrinted(n, t);
  }

  // The code at each place, and what has been loaded by then.
  lemma StopFirst(c: seq<Byte>, known: set<Symbol>, s: Stop)
    requires StopsAt(c, known, s)
    ensures s.FirstSize? ==> LoadLists(c, known) == Loaded(BAD_SYMBOL_COUNT_PREMATURE_EOF, [], [], [])
    ensures s.FirstItem? && |s.t| < 4 ==> LoadLists(c, known) == Loaded(BAD_SYMBOL_PREMATURE_EOF, s.es, [], [])
    ensures s.FirstItem? && |s.t| >= 4 ==> LoadLists(c, known) == Loaded(BAD_PROBABILITY_PREMATURE_EOF, s.es, [], [])
    ensures s.NodeCount? ==> LoadLists(c, known) == Loaded(BAD_SYMBOL_COUNT_PREMATURE_EOF, s.first, [], [])
  {
    match s
    case FirstItem(n, es, t) =>
      ReadSizePrinted(n, PrintItems(es) + t);
      ItemsStop(es, t, n, []);
      assert [] + es == es;
    case NodeCount(first, t) =>
      ReadListPrinted(first, t);
    case _ =>
  }

  lemma StopNode(c: seq<Byte>, known: set<Symbol>, s: Stop)
    requires StopsAt(c, known, s)
    ensures s.NodeSymbol? ==> LoadLists(c, known) == Loaded(BAD_SYMBOL_PREMATURE_EOF, s.first, s.ns, [])
    ensures s.KnownSymbol? ==> LoadLists(c, known) == Loaded(BAD_SYMBOL, s.first, s.ns, s.t)
    ensures s.NodeSize? ==>
              LoadLists(c, known) == Loaded(BAD_NODE_COUNT_PREMATURE_EOF, s.first, s.ns + [Entry(s.c, [])], [])
    ensures s.NodeItem? && |s.t| < 4 ==>
              LoadLists(c, known) == Loaded(BAD_SYMBOL_PREMATURE_EOF, s.first, s.ns + [Entry(s.c, s.es)], [])
    ensures s.NodeItem? && |s.t| >= 4 ==>
              LoadLists(c, known) == Loaded(BAD_PROBABILITY_PREMATURE_EOF, s.first, s.ns + [Entry(s.c, s.es)], [])
  {
    if s.NodeSymbol? || s.KnownSymbol? || s.NodeSize? || s.NodeItem? {
      var rest := RestOf(s);
      FirstRead(s.first, s.n, PrintNodes(s.ns) + rest, known);
      RestReads(known, s);
      NodesStop(s.ns, rest, s.n, known);
      assert s.ns + [] == s.ns;
    }
  }

  // What is left behind the complete nodes.
  function RestOf(s: Stop): seq<Byte>
    requires s.NodeSymbol? || s.KnownSymbol? || s.NodeSize? || s.NodeItem?
  {
    match s
    case NodeSymbol(first, n, ns, t) => t
    case KnownSymbol(first, n, ns, x, t) => LittleEndian(x, WORD) + t
    case NodeSize(first, n, ns, x, t) => LittleEndian(x, WORD) + t
    case NodeItem(first, n, ns, x, m, es, t) => LittleEndian(x, WORD) + (PrintSize(m) + (PrintItems(es) + t))
  }

  lemma RestReads(known: set<Symbol>, s: Stop)
    requires s.NodeSymbol? || s.KnownSymbol? || s.NodeSize? || s.NodeItem?
    requires (s.NodeSymbol? || s.NodeSize?) ==> |s.t| < 4
    requires s.KnownSymbol? ==> Taken(s.ns, known, s.c)
    requires s.NodeSize? || s.NodeItem? ==> !Taken(s.ns, known, s.c)
    requires s.NodeItem? ==> Within(s.es, s.m, s.t)
    ensures ReadNode(RestOf(s), known + Symbols(s.ns)) ==
            match s
            case NodeSymbol(first, n, ns, t) => Read(BAD_SYMBOL_PREMATURE_EOF, [], [])
            case KnownSymbol(first, n, ns, x, t) => Read(BAD_SYMBOL, [], t)
            case NodeSize(first, n, ns, x, t) => Read(BAD_NODE_COUNT_PREMATURE_EOF, [Entry(x, [])], [])
            case NodeItem(first, n, ns, x, m, es, t) =>
              Read(if |t| < 4 then BAD_SYMBOL_PREMATURE_EOF else BAD_PROBABILITY_PREMATURE_EOF, [Entry(x, es)], [])
  {
    match s
    case NodeSymbol(first, n, ns, t) =>
    case KnownSymbol(first, n, ns, x, t) =>
      TakenIff(ns, known, x);
      ReadU32Printed(x, t);
    case NodeSize(first, n, ns, x, t) =>
      TakenIff(ns, known, x);
      ReadU32Printed(x, t);
    case NodeItem(first, n, ns, x, m, es, t) =>
      TakenIff(ns, known, x);
      ReadU32Printed(x, PrintSize(m) + (PrintItems(es) + t));
      ReadSizePrinted(m, PrintItems(es) + t);
      ItemsStop(es, t, m, []);
      assert [] + es == es;
  }

  // --- every rejected file stops somewhere ---

  lemma {:induction false} ItemsStops(b: seq<Byte>, n: nat, got: seq<Item>) returns (es: seq<Item>, t: seq<Byte>)
    requires ReadItems(b, n, got).code != OK
    ensures Within(es, n, t) && b == PrintItems(es) + t
    decreases n
  {
    if ReadU32(b).None? || ReadU64(b[4..]).None? {
      es, t := [], b;
      assert PrintItems([]) + b == b;
    } else {
      var e := Item(ReadU32(b).value, ReadU64(b[4..]).value);
      var more;
      more, t := ItemsStops(b[12..], n - 1, got + [e]);
      es := [e] + more;
      ReadItemPrints(b);
      assert es[1..] == more;
      Regroup(PrintItem(e), PrintItems(more), t);
    }
  }

  lemma {:induction false} NodesStops(b: seq<Byte>, n: nat, known: set<Symbol>, got: seq<Entry>)
    returns (ns: seq<Entry>, t: seq<Byte>)
    requires ReadNodes(b, n, known, got).code != OK
    ensures |ns| < n && Fresh(ns, known) && (forall i :: 0 <= i < |ns| ==> |ns[i].items| < TWO32)
    ensures b == PrintNodes(ns) + t && ReadNode(t, known + Symbols(ns)).code != OK
    decreases n
  {
    assert ReadNodes(b, n, known, got) == ReadFirst(b, n, known, got);
    var r := ReadNode(b, known);
    if r.code != OK {
      ns, t := [], b;
      assert PrintNodes([]) + b == b && known + Symbols([]) == known;
    } else {
      var e := r.got[0];
      var more;
      more, t := NodesStops(r.rest, n - 1, known + {e.symbol}, got + r.got);
      ns := [e] + more;
      assert ns[1..] == more;
      ReadNodePrints(b, known);
      NodesJoin(e, more, b, r.rest, t);
      FreshJoin(e, more, known);
      SymbolsCons(ns, known);
    }
  }

  // The place behind some complete nodes where t cannot be read on.
  lemma NodeStops(first: seq<Item>, n: U32, ns: seq<Entry>, t: seq<Byte>, known: set<Symbol>) returns (s: Stop)
    requires Begun(first, n, ns, known) && ReadNode(t, known + Symbols(ns)).code != OK
    ensures StopsAt(PrintList(first) + (PrintSize(n) + (PrintNodes(ns) + t)), known, s)
  {
    if |t| < 4 {
      s := NodeSymbol(first, n, ns, t);
    } else {
      var x, u := ReadU32(t).value, t[4..];
      ReadU32Prints(t);
      TakenIff(ns, known, x);
      if Taken(ns, known, x) {
        s := KnownSymbol(first, n, ns, x, u);
      } else if |u| < 4 {
        s := NodeSize(first, n, ns, x, u);
      } else {
        var m := ReadU32(u).value;
        ReadSizePrints(u, m);
        var es, v := ItemsStops(u[4..], m, []);
        s := NodeItem(first, n, ns, x, m, es, v);
      }
    }
  }

  lemma ListsStop(c: seq<Byte>, known: set<Symbol>) returns (s: Stop)
    requires LoadLists(c, known).code != OK
    ensures StopsAt(c, known, s)
  {
    if |c| < 4 { return FirstSize(c); }
    var n := ReadU32(c).value;
    var r := ReadItems(c[4..], n, []);
    if r.code != OK {
      ReadSizePrints(c, n);
      var es, t := ItemsStops(c[4..], n, []);
      return FirstItem(n, es, t);
    }
    var first := ReadItemsPrints(c[4..], n, []);
    var f := r.rest;
    assert c == PrintList(first) + f by { ReadListPrints(c, first, f); }
    if |f| < 4 { return NodeCount(first, f); }
    var m := ReadU32(f).value;
    assert f == PrintSize(m) + f[4..] by { ReadSizePrints(f, m); }
    var ns, t := NodesStops(f[4..], m, known, []);
    s := NodeStops(first, m, ns, t, known);
  }

  // --- each code, by the bytes ---

  // b begins with header and version, and stops so behind them.
  ghost predicate Stops(b: seq<Byte>, known: set<Symbol>, s: Stop) {
    |b| >= 5 && b[..4] == [0x4D, 0x52, 0x4B, 0x56] && b[4] == 2 && StopsAt(b[5..], known, s)
  }

  lemma StopCode(b: seq<Byte>, known: set<Symbol>, s: Stop)
    requires Stops(b, known, s)
    ensures s.FirstSize? || s.NodeCount? ==> Load(b, known).code == BAD_SYMBOL_COUNT_PREMATURE_EOF
    ensures s.KnownSymbol? ==> Load(b, known).code == BAD_SYMBOL
    ensures s.NodeSize? ==> Load(b, known).code == BAD_NODE_COUNT_PREMATURE_EOF
    ensures s.NodeSymbol? || ((s.FirstItem? || s.NodeItem?) && |s.t| < 4) ==>
              Load(b, known).code == BAD_SYMBOL_PREMATURE_EOF
    ensures (s.FirstItem? || s.NodeItem?) && |s.t| >= 4 ==> Load(b, known).code == BAD_PROBABILITY_PREMATURE_EOF
  {
    StopFirst(b[5..], known, s);
    StopNode(b[5..], known, s);
  }

  lemma StopExists(b: seq<Byte>, known: set<Symbol>) returns (s: Stop)
    requires |b| >= 5 && b[..4] == [0x4D, 0x52, 0x4B, 0x56] && b[4] == 2 && Load(b, known).code != OK
    ensures Stops(b, known, s)
  {
    s := ListsStop(b[5..], known);
  }

  // In the size of the first list, or in the number of nodes.
  lemma SymbolCountPremature(b: seq<Byte>, known: set<Symbol>)
    ensures Load(b, known).code == BAD_SYMBOL_COUNT_PREMATURE_EOF <==>
            exists s :: Stops(b, known, s) && (s.FirstSize? || s.NodeCount?)
  {
    HeaderCodes(b, known);
    if Load(b, known).code == BAD_SYMBOL_COUNT_PREMATURE_EOF {
      var s := StopExists(b, known);
      StopCode(b, known, s);
    }
    forall s | Stops(b, known, s) && (s.FirstSize? || s.NodeCount?)
      ensures Load(b, known).code == BAD_SYMBOL_COUNT_PREMATURE_EOF
    {
      StopCode(b, known, s);
    }
  }

  // At the symbol of a node, if there is a node for it already.
  lemma SymbolKnown(b: seq<Byte>, known: set<Symbol>)
    ensures Load(b, known).code == BAD_SYMBOL <==> exists s :: Stops(b, known, s) && s.KnownSymbol?
  {
    HeaderCodes(b, known);
    if Load(b, known).code == BAD_SYMBOL {
      var s := StopExists(b, known);
      StopCode(b, known, s);
    }
    forall s | Stops(b, known, s) && s.KnownSymbol? ensures Load(b, known).code == BAD_SYMBOL {
      StopCode(b, known, s);
    }
  }

  // In the number of successors of a new symbol.
  lemma NodeCountPremature(b: seq<Byte>, known: set<Symbol>)
    ensures Load(b, known).code == BAD_NODE_COUNT_PREMATURE_EOF <==> exists s :: Stops(b, known, s) && s.NodeSize?
  {
    HeaderCodes(b, known);
    if Load(b, known).code == BAD_NODE_COUNT_PREMATURE_EOF {
      var s := StopExists(b, known);
      StopCode(b, known, s);
    }
    forall s | Stops(b, known, s) && s.NodeSize? ensures Load(b, known).code == BAD_NODE_COUNT_PREMATURE_EOF {
      StopCode(b, known, s);
    }
  }

  // In a symbol: of a node, or of an item of one of the lists.
  lemma SymbolPremature(b: seq<Byte>, known: set<Symbol>)
    ensures Load(b, known).code == BAD_SYMBOL_PREMATURE_EOF <==>
            exists s :: Stops(b, known, s) && (s.NodeSymbol? || ((s.FirstItem? || s.NodeItem?) && |s.t| < 4))
  {
    HeaderCodes(b, known);
    if Load(b, known).code == BAD_SYMBOL_PREMATURE_EOF {
      var s := StopExists(b, known);
      StopCode(b, known, s);
    }
    forall s | Stops(b, known, s) && (s.NodeSymbol? || ((s.FirstItem? || s.NodeItem?) && |s.t| < 4))
      ensures Load(b, known).code == BAD_SYMBOL_PREMATURE_EOF
    {
      StopCode(b, known, s);
    }
  }

  // In the probability of an item of one of the lists.
  lemma ProbabilityPremature(b: seq<Byte>, known: set<Symbol>)
    ensures Load(b, known).code == BAD_PROBABILITY_PREMATURE_EOF <==>
            exists s :: Stops(b, known, s) && (s.FirstItem? || s.NodeItem?) && |s.t| >= 4
  {
    HeaderCodes(b, known);
    if Load(b, known).code == BAD_PROBABILITY_PREMATURE_EOF {
      var s := StopExists(b, known);
      StopCode(b, known, s);
    }
    forall s | Stops(b, known, s) && (s.FirstItem? || s.NodeItem?) && |s.t| >= 4
      ensures Load(b, known).code == BAD_PROBABILITY_PREMATURE_EOF
    {
      StopCode(b, known, s);
    }
  }
}
