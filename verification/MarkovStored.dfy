// How the lists and maps of a Markov chain correspond to the entries of its file.
module MarkovStored {
  import opened Records
  import opened Markov
  import opened MarkovNode
  import opened HashText
  import opened MarkovFormat

  // A probability and its eight bytes: the bytes of a double and the double of eight
  // bytes are not looked into.
  type ToBits = real -> U64
  type ToValue = U64 -> real

  function ItemOf(e: Share, bits: ToBits): Item { Item(e.symbol, bits(e.probability)) }

  function ShareOf(e: Item, value: ToValue): Share { Share(e.symbol, value(e.bits)) }

  function ItemsOf(list: seq<Share>, bits: ToBits): (es: seq<Item>)
    ensures |es| == |list|
  {
    seq(|list|, i requires 0 <= i < |list| => ItemOf(list[i], bits))
  }

  function SharesOf(es: seq<Item>, value: ToValue): (list: seq<Share>)
    ensures |list| == |es|
  {
    seq(|es|, i requires 0 <= i < |es| => ShareOf(es[i], value))
  }

  // The successors of a node after addSuccessor() for each item: the last one counts.
  function Overlay(es: seq<Item>, value: ToValue): Probabilities {
    if es == [] then map[]
    else Overlay(es[..|es| - 1], value)[es[|es| - 1].symbol := value(es[|es| - 1].bits)]
  }

  // The nodes after some more were loaded.
  function Stored(succ: Transitions, ns: seq<Entry>, value: ToValue): Transitions {
    if ns == [] then succ
    else Stored(succ, ns[..|ns| - 1], value)[ns[|ns| - 1].symbol := Overlay(ns[|ns| - 1].items, value)]
  }

  type Lists = map<Symbol, seq<Share>>

  // The nodes in the order in which they are saved.
  function EntriesOf(order: seq<Symbol>, lists: Lists, bits: ToBits): (ns: seq<Entry>)
    requires forall i :: 0 <= i < |order| ==> order[i] in lists
    ensures |ns| == |order|
  {
    seq(|order|, i requires 0 <= i < |order| => Entry(order[i], ItemsOf(lists[order[i]], bits)))
  }

  lemma EntriesSnoc(order: seq<Symbol>, lists: Lists, s: Symbol, bits: ToBits)
    requires s in lists && forall i :: 0 <= i < |order| ==> order[i] in lists
    ensures EntriesOf(order + [s], lists, bits) == EntriesOf(order, lists, bits) + [Entry(s, ItemsOf(lists[s], bits))]
  {
  }

  // Each symbol once.
  ghost predicate IsOrder(order: seq<Symbol>, keys: set<Symbol>) {
    && (forall i :: 0 <= i < |order| ==> order[i] in keys)
    && (forall s :: s in keys ==> s in order)
    && forall i, j :: 0 <= i < j < |order| ==> order[i] != order[j]
  }

  // Every probability of the list has its own eight bytes.
  ghost predicate Exact(list: seq<Share>, bits: ToBits, value: ToValue) {
    forall i :: 0 <= i < |list| ==> value(bits(list[i].probability)) == list[i].probability
  }

  lemma SharesOfItems(list: seq<Share>, bits: ToBits, value: ToValue)
    requires Exact(list, bits, value)
    ensures SharesOf(ItemsOf(list, bits), value) == list
  {
  }

  lemma AsMapSnoc(list: seq<Share>, e: Share)
    requires e.symbol !in AsMap(list)
    ensures AsMap(list + [e]) == AsMap(list)[e.symbol := e.probability]
  {
    assert list + [e] + [] == list + [e] && list + [] == list;
    AsMapInsert(list, e, []);
  }

  // Loading the items of a list of distinct symbols gives the same probabilities.
  lemma {:induction false} OverlayOfItems(list: seq<Share>, bits: ToBits, value: ToValue)
    requires Exact(list, bits, value) && Distinct(list)
    ensures Overlay(ItemsOf(list, bits), value) == AsMap(list)
  {
    if list != [] {
      var front, e := list[..|list| - 1], list[|list| - 1];
      OverlayOfItems(front, bits, value);
      assert ItemsOf(list, bits)[..|list| - 1] == ItemsOf(front, bits);
      AsMapKeys(front, e.symbol);
      AsMapSnoc(front, e);
      assert front + [e] == list;
    }
  }

  // The lists of the nodes show their probabilities.
  ghost predicate AllListed(lists: Lists, succ: Transitions) {
    lists.Keys == succ.Keys && forall s :: s in lists ==> IsListing(lists[s], succ[s])
  }

  ghost predicate AllExact(lists: Lists, bits: ToBits, value: ToValue) {
    forall s :: s in lists ==> Exact(lists[s], bits, value)
  }

  lemma {:induction false} StoredOfEntries(order: seq<Symbol>, lists: Lists, succ: Transitions, bits: ToBits, value: ToValue)
    requires forall i :: 0 <= i < |order| ==> order[i] in lists
    requires AllListed(lists, succ) && AllExact(lists, bits, value)
    ensures Stored(map[], EntriesOf(order, lists, bits), value) == map s | s in succ && s in order :: succ[s]
    decreases |order|
  {
    if order != [] {
      var front, s := order[..|order| - 1], order[|order| - 1];
      StoredOfEntries(front, lists, succ, bits, value);
      assert EntriesOf(order, lists, bits)[..|order| - 1] == EntriesOf(front, lists, bits);
      OverlayOfItems(lists[s], bits, value);
      assert order == front + [s];
    }
  }

  // A chain that was saved and loaded again has the same first symbols, and the same
  // successors of the same symbols.
  lemma SavedIsLoaded(first: seq<Share>, order: seq<Symbol>, lists: Lists, succ: Transitions, bits: ToBits, value: ToValue)
    requires IsOrder(order, lists.Keys) && AllListed(lists, succ)
    requires Exact(first, bits, value) && AllExact(lists, bits, value)
    requires Fits(ItemsOf(first, bits), EntriesOf(order, lists, bits))
    ensures var l := Load(PrintChain(ItemsOf(first, bits), EntriesOf(order, lists, bits)), {});
            && l.code == OK && l.rest == []
            && SharesOf(l.first, value) == first
            && Stored(map[], l.nodes, value) == succ
  {
    var items, ns := ItemsOf(first, bits), EntriesOf(order, lists, bits);
    assert PrintChain(items, ns) + [] == PrintChain(items, ns);
    LoadPrinted(items, ns, [], {});
    SharesOfItems(first, bits, value);
    StoredOfEntries(order, lists, succ, bits, value);
    assert (map s | s in succ && s in order :: succ[s]) == succ;
  }

  // The stream that a chain is loaded from: a read that hits the end sets eof.
  class InputStream {
    var unread: seq<Byte>
    var eof: bool

    constructor (bytes: seq<Byte>)
      ensures unread == bytes && !eof
    {
      unread, eof := bytes, false;
    }

    // The next n bytes; as many as there are at a premature end.
    method Get(n: nat) returns (b: seq<Byte>)
      modifies this
      ensures n <= |old(unread)| ==>
                b == old(unread)[..n] && unread == old(unread)[n..] && eof == old(eof)
      ensures n > |old(unread)| ==> b == old(unread) && unread == [] && eof
    {
      if n <= |unread| {
        b, unread := unread[..n], unread[n..];
      } else {
        b, unread, eof := unread, [], true;
      }
    }

    method GetU32() returns (x: U32)
      modifies this
      ensures ReadU32(old(unread)).Some? ==>
                x == ReadU32(old(unread)).value && unread == old(unread)[4..] && eof == old(eof)
      ensures ReadU32(old(unread)).None? ==> unread == [] && eof
    {
      ghost var before := unread;
      x := 0;
      var b := Get(4);
      if |b| == 4 && ReadU32(b).Some? { x := ReadU32(b).value; }
      assert 4 <= |before| ==> b[..4] == before[..4];
    }

    method GetU64() returns (x: U64)
      modifies this
      ensures ReadU64(old(unread)).Some? ==>
                x == ReadU64(old(unread)).value && unread == old(unread)[8..] && eof == old(eof)
      ensures ReadU64(old(unread)).None? ==> unread == [] && eof
    {
      ghost var before := unread;
      x := 0;
      var b := Get(8);
      if |b| == 8 && ReadU64(b).Some? { x := ReadU64(b).value; }
      assert 8 <= |before| ==> b[..8] == before[..8];
    }
  }

  lemma SharesSnoc(es: seq<Item>, e: Item, value: ToValue)
    ensures SharesOf(es + [e], value) == SharesOf(es, value) + [ShareOf(e, value)]
  {
  }

  lemma OverlaySnoc(es: seq<Item>, e: Item, value: ToValue)
    ensures Overlay(es + [e], value) == Overlay(es, value)[e.symbol := value(e.bits)]
  {
    assert (es + [e])[..|es + [e]| - 1] == es;
  }

  lemma StoredOne(succ: Transitions, n: Entry, value: ToValue)
    ensures Stored(succ, [n], value) == succ[n.symbol := Overlay(n.items, value)]
  {
    assert [n][..|[n]| - 1] == [];
  }

  lemma StoredMore(succ: Transitions, ns: seq<Entry>, more: seq<Entry>, value: ToValue)
    requires |more| <= 1
    ensures Stored(succ, ns + more, value) == Stored(Stored(succ, ns, value), more, value)
  {
    if more == [] {
      assert ns + more == ns;
    } else {
      assert (ns + more)[..|ns + more| - 1] == ns;
    }
  }
}
