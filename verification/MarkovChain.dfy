// The Markov chain: training, probabilities, and the score of a word.
module MarkovChain {
  import opened Records
  import opened Markov
  import opened MarkovTraining
  import opened MarkovNode
  import opened HashText
  import opened MarkovFormat
  import opened MarkovStored

  // Probabilities of symbols that have counts are replaced.
  lemma Replaced(a: Probabilities, counts: Counts)
    requires a.Keys <= counts.Keys && (counts == map[] || Divisor(counts) > 0)
    ensures a + NodeShares(counts) == NodeShares(counts)
  {
  }

  function WithRow<T>(p: map<Symbol, map<Symbol, T>>, s: Symbol): (q: map<Symbol, map<Symbol, T>>)
    ensures s in q
  {
    if s in p then p else p[s := map[]]
  }

  lemma BumpRow(p: PairTable, s: Symbol, t: Symbol)
    ensures WithRow(p, s)[s := Bump(WithRow(p, s)[s], t)] == BumpPair(p, s, t)
  {
  }

  lemma RowStored(succ: Transitions, c: Symbol, items: seq<Item>, value: ToValue)
    ensures WithRow(succ, c)[c := Overlay(items, value)] == Stored(succ, [Entry(c, items)], value)
  {
    StoredOne(succ, Entry(c, items), value);
  }

  // No symbol has a probability without a count.
  ghost predicate Covers(succ: Transitions, pairs: PairTable) {
    && succ.Keys == pairs.Keys
    && forall s :: s in pairs ==> succ[s].Keys <= pairs[s].Keys
  }

  lemma CoversStep(succ: Transitions, pairs: PairTable, s: Symbol, t: Symbol)
    requires Covers(succ, pairs)
    ensures Covers(WithRow(succ, s), BumpPair(pairs, s, t))
  {
  }

  function RowsTrained(succ: Transitions, w: Word): Transitions {
    if |w| < 2 then succ else WithRow(RowsTrained(succ, w[..|w| - 1]), w[|w| - 2])
  }

  lemma {:induction false} CoversTrained(succ: Transitions, pairs: PairTable, w: Word)
    requires Covers(succ, pairs)
    ensures Covers(RowsTrained(succ, w), PairsTrained(pairs, w))
  {
    if |w| >= 2 {
      var v := w[..|w| - 1];
      CoversTrained(succ, pairs, v);
      CoversStep(RowsTrained(succ, v), PairsTrained(pairs, v), w[|w| - 2], w[|w| - 1]);
    }
  }

  // Counts and probabilities that stem from the words.
  ghost predicate TrainedTables(words: seq<Word>, first: Counts, probs: Probabilities, pairs: PairTable, succ: Transitions) {
    && FirstTable(first, words)
    && FollowTable(pairs, words)
    && probs.Keys <= first.Keys
    && Covers(succ, pairs)
  }

  lemma TrainedStep(words: seq<Word>, first: Counts, probs: Probabilities, pairs: PairTable, succ: Transitions, w: Word)
    requires TrainedTables(words, first, probs, pairs, succ) && w != []
    ensures TrainedTables(words + [w], Bump(first, w[0]), probs, PairsTrained(pairs, w), RowsTrained(succ, w))
  {
    FirstTableStep(first, words, w);
    FollowTableTrained(pairs, words, w);
    CoversTrained(succ, pairs, w);
  }

  // Probabilities that belong to the counts.
  ghost predicate UpdatedTables(first: Counts, probs: Probabilities, pairs: PairTable, succ: Transitions) {
    && Divisible(pairs) && Divisor(first) > 0
    && probs == NodeShares(first)
    && succ == AllShares(pairs)
  }

  lemma UpdatedStep(words: seq<Word>, first: Counts, probs: Probabilities, pairs: PairTable, succ: Transitions)
    requires TrainedTables(words, first, probs, pairs, succ)
    requires Divisible(pairs) && (first == map[] || Divisor(first) > 0)
    ensures TrainedTables(words, first, probs + NodeShares(first), pairs, SharesOver(succ, pairs))
    ensures first != map[] ==> UpdatedTables(first, probs + NodeShares(first), pairs, SharesOver(succ, pairs))
  {
    Replaced(probs, first);
    CoveredShares(succ, pairs);
  }

  // What update() makes of the probabilities of the nodes.
  ghost function SharesOver(succ: Transitions, pairs: PairTable): (q: Transitions)
    requires succ.Keys == pairs.Keys && Divisible(pairs)
  {
    map s | s in pairs :: succ[s] + NodeShares(pairs[s])
  }

  lemma CoveredShares(succ: Transitions, pairs: PairTable)
    requires Covers(succ, pairs) && Divisible(pairs)
    ensures SharesOver(succ, pairs) == AllShares(pairs)
  {
    forall s | s in pairs ensures SharesOver(succ, pairs)[s] == AllShares(pairs)[s] {
      Replaced(succ[s], pairs[s]);
    }
  }

  lemma GoalAt(succ: Transitions, pairs: PairTable, s: Symbol)
    requires succ.Keys == pairs.Keys && Divisible(pairs) && s in pairs
    ensures pairs[s] == map[] || Divisor(pairs[s]) > 0
    ensures SharesOver(succ, pairs)[s] == succ[s] + NodeShares(pairs[s])
  {
  }

  // The probabilities while some nodes are still to be updated.
  ghost function Mix(a: Transitions, b: Transitions, todo: set<Symbol>): Transitions
    requires a.Keys == b.Keys
  {
    map s | s in a :: if s in todo then a[s] else b[s]
  }

  lemma MixEnds(a: Transitions, b: Transitions)
    requires a.Keys == b.Keys
    ensures Mix(a, b, a.Keys) == a && Mix(a, b, {}) == b
  {
  }

  lemma MixStep(a: Transitions, b: Transitions, todo: set<Symbol>, s: Symbol)
    requires a.Keys == b.Keys && s in todo && s in a
    ensures Mix(a, b, todo)[s] == a[s]
    ensures Mix(a, b, todo)[s := b[s]] == Mix(a, b, todo - {s})
  {
  }

  function Begin(w: Word, n: nat): Word { if n <= |w| then w[..n] else w }

  lemma TrainedMore(pairs: PairTable, succ: Transitions, w: Word, i: nat)
    requires i + 1 < |w|
    ensures PairsTrained(pairs, Begin(w, i + 2)) == BumpPair(PairsTrained(pairs, Begin(w, i + 1)), w[i], w[i + 1])
    ensures RowsTrained(succ, Begin(w, i + 2)) == WithRow(RowsTrained(succ, Begin(w, i + 1)), w[i])
  {
    var v := w[..i + 2];
    assert v[..i + 1] == w[..i + 1];
  }

  class Chain {
    var nodes: map<Symbol, Node>
    var firstCounts: Counts
    var firstProbs: Probabilities
    var firstSorted: seq<Share>

    // Each node belongs to one symbol.
    ghost predicate Valid()
      reads this`nodes
    {
      forall s :: s in nodes ==> nodes[s].home == s
    }

    ghost function Pairs(): (p: PairTable)
      reads this`nodes, nodes.Values`counts
      ensures p.Keys == nodes.Keys
    {
      map s | s in nodes :: nodes[s].counts
    }

    ghost function Successors(): (p: Transitions)
      reads this`nodes, nodes.Values`probs
      ensures p.Keys == nodes.Keys
    {
      map s | s in nodes :: nodes[s].probs
    }

    constructor ()
      ensures Valid() && nodes == map[] && firstCounts == map[] && firstProbs == map[] && firstSorted == []
    {
      nodes, firstCounts, firstProbs, firstSorted := map[], map[], map[], [];
    }

    method AddFirst(symbol: Symbol)
      modifies this`firstCounts
      ensures firstCounts == Bump(old(firstCounts), symbol)
    {
      if symbol !in firstCounts { firstCounts := firstCounts[symbol := 0]; }
      firstCounts := firstCounts[symbol := firstCounts[symbol] + 1];
    }

    // A symbol without a node gets an empty one.
    method AddNode(symbol: Symbol)
      requires Valid()
      modifies this`nodes
      ensures Valid() && symbol in nodes
      ensures fresh(nodes.Values - old(nodes.Values))
      ensures Pairs() == WithRow(old(Pairs()), symbol)
      ensures Successors() == WithRow(old(Successors()), symbol)
      ensures symbol !in old(nodes) ==> fresh(nodes[symbol])
    {
      if symbol !in nodes {
        var n := new Node(symbol);
        nodes := nodes[symbol := n];
        assert Pairs() == old(Pairs())[symbol := map[]];
        assert Successors() == old(Successors())[symbol := map[]];
      }
    }

    method Count(current: Symbol, successor: Symbol)
      requires Valid() && current in nodes
      modifies nodes.Values`counts
      ensures Pairs() == old(Pairs())[current := Bump(old(Pairs())[current], successor)]
    {
      nodes[current].Increment(successor);
    }

    method AddPair(current: Symbol, successor: Symbol)
      requires Valid()
      modifies this`nodes, nodes.Values`counts
      ensures Valid() && current in nodes
      ensures fresh(nodes.Values - old(nodes.Values))
      ensures Pairs() == BumpPair(old(Pairs()), current, successor)
      ensures Successors() == WithRow(old(Successors()), current)
    {
      BumpRow(Pairs(), current, successor);
      AddNode(current);
      Count(current, successor);
    }

    method AddPairs(w: Word)
      requires Valid()
      modifies this`nodes, nodes.Values`counts
      ensures Valid()
      ensures fresh(nodes.Values - old(nodes.Values))
      ensures Pairs() == PairsTrained(old(Pairs()), w)
      ensures Successors() == RowsTrained(old(Successors()), w)
    {
      var i := 0;
      while i + 1 < |w|
        invariant Valid() && (w != [] ==> i < |w|)
        invariant fresh(nodes.Values - old(nodes.Values))
        invariant Pairs() == PairsTrained(old(Pairs()), Begin(w, i + 1))
        invariant Successors() == RowsTrained(old(Successors()), Begin(w, i + 1))
        decreases |w| - i
      {
        TrainedMore(old(Pairs()), old(Successors()), w, i);
        AddPair(w[i], w[i + 1]);
        i := i + 1;
      }
      assert Begin(w, i + 1) == w;
    }

    // decode: the conversion from UTF-8
    method Train(pwd: string, decode: string -> Word) returns (ok: bool)
      requires Valid()
      modifies this`nodes, this`firstCounts, nodes.Values`counts
      ensures Valid()
      ensures fresh(nodes.Values - old(nodes.Values))
      ensures ok <==> pwd != "" && decode(pwd) != []
      ensures firstCounts == if ok then Bump(old(firstCounts), decode(pwd)[0]) else old(firstCounts)
      ensures Pairs() == if ok then PairsTrained(old(Pairs()), decode(pwd)) else old(Pairs())
      ensures Successors() == if ok then RowsTrained(old(Successors()), decode(pwd)) else old(Successors())
    {
      if pwd == "" { return false; }
      var w := decode(pwd);
      if w == [] { return false; }
      AddFirst(w[0]);
      AddPairs(w);
      ok := true;
    }

    ghost function At(s: Symbol): Node
      reads this`nodes
      requires s in nodes
    {
      nodes[s]
    }

    ghost predicate Listed(s: Symbol)
      reads this`nodes, nodes.Values`probs, nodes.Values`sorted
    {
      s in nodes && IsListing(nodes[s].sorted, nodes[s].probs)
    }

    method UpdateNode(s: Symbol, ghost p: Probabilities)
      requires Valid() && s in nodes
      requires Pairs()[s] == map[] || Divisor(Pairs()[s]) > 0
      requires p == Successors()[s] + NodeShares(Pairs()[s])
      modifies At(s)`probs, At(s)`sorted
      ensures Successors() == old(Successors())[s := p] && Pairs() == old(Pairs())
      ensures Listed(s)
      ensures forall t :: old(Listed(t)) ==> Listed(t)
    {
      nodes[s].Update();
    }

    method UpdateNodes(ghost start: Transitions, ghost pairs: PairTable)
      requires Valid() && start == Successors() && pairs == Pairs() && Divisible(pairs)
      modifies nodes.Values`probs, nodes.Values`sorted
      ensures Successors() == SharesOver(start, pairs)
      ensures forall s :: s in nodes ==> Listed(s)
    {
      var todo := nodes.Keys;
      ghost var goal := SharesOver(start, pairs);
      MixEnds(start, goal);
      while todo != {}
        invariant todo <= nodes.Keys
        invariant Successors() == Mix(start, goal, todo) && Pairs() == pairs
        invariant forall s :: s in nodes.Keys - todo ==> Listed(s)
        decreases todo
      {
        var s :| s in todo;
        MixStep(start, goal, todo, s);
        GoalAt(start, pairs, s);
        UpdateNode(s, goal[s]);
        todo := todo - {s};
      }
    }

    method Update()
      requires Valid() && Divisible(Pairs()) && (firstCounts == map[] || Divisor(firstCounts) > 0)
      modifies this`firstProbs, this`firstSorted, nodes.Values`probs, nodes.Values`sorted
      ensures firstProbs == old(firstProbs) + NodeShares(firstCounts)
      ensures IsListing(firstSorted, firstProbs)
      ensures Successors() == SharesOver(old(Successors()), old(Pairs()))
      ensures forall s :: s in nodes ==> Listed(s)
    {
      ghost var start, pairs := Successors(), Pairs();
      firstProbs := Divide(firstCounts, firstProbs);
      firstSorted := ByProbability(firstProbs);
      UpdateNodes(start, pairs);
    }

    ghost function AllLists(): (l: Lists)
      reads this`nodes, nodes.Values`sorted
      ensures l.Keys == nodes.Keys
    {
      map s | s in nodes :: nodes[s].sorted
    }

    lemma ListsShow()
      requires forall s :: s in nodes ==> Listed(s)
      ensures AllListed(AllLists(), Successors())
    {
      forall s | s in AllLists() ensures IsListing(AllLists()[s], Successors()[s]) {
        assert Listed(s);
      }
    }

    // The nodes are saved in any order.
    method SaveNodes(bits: ToBits) returns (out: seq<Byte>, ghost order: seq<Symbol>)
      ensures IsOrder(order, nodes.Keys)
      ensures out == PrintNodes(EntriesOf(order, AllLists(), bits)) && |order| == |nodes|
    {
      out, order := [], [];
      var todo := nodes.Keys;
      while todo != {}
        invariant todo <= nodes.Keys && IsOrder(order, nodes.Keys - todo)
        invariant |order| + |todo| == |nodes.Keys|
        invariant out == PrintNodes(EntriesOf(order, AllLists(), bits))
        decreases todo
      {
        var s :| s in todo;
        var list := nodes[s].sorted;
        EntriesSnoc(order, AllLists(), s, bits);
        PrintNodesSnoc(EntriesOf(order, AllLists(), bits), Entry(s, ItemsOf(list, bits)));
        var items := WriteShares(list, bits);
        out := out + (LittleEndian(s, WORD) + (PrintSize(|list|) + items));
        order := order + [s];
        todo := todo - {s};
      }
    }

    // A chain without nodes writes nothing.
    method SaveBinary(bits: ToBits) returns (out: seq<Byte>, ghost order: seq<Symbol>)
      ensures IsOrder(order, nodes.Keys)
      ensures nodes == map[] ==> out == []
      ensures nodes != map[] ==>
                out == PrintChain(ItemsOf(firstSorted, bits), EntriesOf(order, AllLists(), bits))
    {
      if nodes == map[] { return [], []; }
      var first := WriteShares(firstSorted, bits);
      var body;
      body, order := SaveNodes(bits);
      out := HEADER + [VERSION] + (PrintSize(|firstSorted|) + first + (PrintSize(|nodes|) + body));
    }

    method TotalProbability(w: Word) returns (score: Score)
      ensures score == WordScore(AsMap(firstSorted), Successors(), w)
    {
      if w == [] { return Value(-1.0); }
      var i := FindSymbol(firstSorted, w[0]);
      if i == |firstSorted| { return Value(0.0); }
      var cur, p := w[0], firstSorted[i].probability;
      var c := 1;
      assert w[1..] == w[c..];
      while c < |w|
        invariant 1 <= c <= |w| && cur == w[c - 1]
        invariant Steps(Successors(), p, cur, w[c..]) == WordScore(AsMap(firstSorted), Successors(), w)
        decreases |w| - c
      {
        assert w[c..][1..] == w[c + 1..];
        if cur !in nodes { return Value(0.0); }
        var q := nodes[cur].Probability(w[c]);
        if q.None? { return OutOfRange; }
        p := Times(p, q.value);
        cur := w[c];
        c := c + 1;
      }
      score := Value(p);
    }

    method LoadFirst(input: InputStream, n: nat, value: ToValue) returns (code: Code)
      requires !input.eof
      modifies input, this`firstSorted
      ensures var r := ReadItems(old(input.unread), n, []);
              && code == r.code && input.unread == r.rest && input.eof == (code != OK)
              && firstSorted == old(firstSorted) + SharesOf(r.got, value)
    {
      var i := 0;
      ghost var got: seq<Item> := [];
      while i < n
        invariant i <= n && !input.eof
        invariant ReadItems(input.unread, n - i, got) == ReadItems(old(input.unread), n, [])
        invariant firstSorted == old(firstSorted) + SharesOf(got, value)
      {
        ghost var b := input.unread;
        var c := input.GetU32();
        if input.eof { return BAD_SYMBOL_PREMATURE_EOF; }
        var p := input.GetU64();
        if input.eof { return BAD_PROBABILITY_PREMATURE_EOF; }
        assert b[4..][8..] == b[12..];
        SharesSnoc(got, Item(c, p), value);
        got := got + [Item(c, p)];
        firstSorted := firstSorted + [Share(c, value(p))];
        i := i + 1;
      }
      code := OK;
    }

    method LoadNode(input: InputStream, value: ToValue, ghost known: set<Symbol>) returns (code: Code, ghost got: seq<Entry>)
      requires Valid() && !input.eof && known == nodes.Keys
      modifies input, this`nodes
      ensures Valid()
      ensures fresh(nodes.Values - old(nodes.Values))
      ensures ReadNode(old(input.unread), known) == Read(code, got, input.unread)
      ensures input.eof ==> code != OK
      ensures Successors() == Stored(old(Successors()), got, value)
      ensures code == OK ==> nodes.Keys == known + {got[0].symbol}
    {
      got := [];
      var c := input.GetU32();
      if input.eof { return BAD_SYMBOL_PREMATURE_EOF, []; }
      if c in nodes { return BAD_SYMBOL, []; }
      code, got := LoadNew(input, c, value);
    }

    // The rest of a node whose symbol is new.
    method LoadNew(input: InputStream, c: Symbol, value: ToValue) returns (code: Code, ghost got: seq<Entry>)
      requires Valid() && !input.eof && c !in nodes
      modifies input, this`nodes
      ensures Valid() && nodes.Keys == old(nodes.Keys) + {c}
      ensures fresh(nodes.Values - old(nodes.Values))
      ensures ReadRow(old(input.unread), c) == Read(code, got, input.unread)
      ensures input.eof ==> code != OK
      ensures Successors() == Stored(old(Successors()), got, value)
    {
      ghost var succ, items := Successors(), [];
      AddNode(c);
      code, items := LoadRow(input, c, value);
      got := [Entry(c, items)];
      RowStored(succ, c, items, value);
    }

    // The next of n nodes, after those in done.
    method LoadNext(input: InputStream, value: ToValue, ghost n: nat, ghost start: Transitions, ghost done: seq<Entry>,
                    ghost goal: Read<Entry>)
      returns (code: Code, ghost all: seq<Entry>)
      requires Valid() && !input.eof && Successors() == Stored(start, done, value)
      requires n > 0 && ReadNodes(input.unread, n, nodes.Keys, done) == goal
      modifies input, this`nodes
      ensures Valid()
      ensures fresh(nodes.Values - old(nodes.Values))
      ensures Successors() == Stored(start, all, value)
      ensures if code == OK then !input.eof && ReadNodes(input.unread, n - 1, nodes.Keys, all) == goal
              else goal == Read(code, all, input.unread)
    {
      assert goal == ReadFirst(input.unread, n, nodes.Keys, done);
      ghost var got;
      code, got := LoadNode(input, value, nodes.Keys);
      StoredMore(start, done, got, value);
      all := done + got;
    }

    method LoadNodes(input: InputStream, n: nat, value: ToValue) returns (code: Code)
      requires Valid() && !input.eof
      modifies input, this`nodes
      ensures Valid()
      ensures fresh(nodes.Values - old(nodes.Values))
      ensures var r := ReadNodes(old(input.unread), n, old(nodes.Keys), []);
              && code == r.code && input.unread == r.rest
              && Successors() == Stored(old(Successors()), r.got, value)
    {
      ghost var start, done: seq<Entry> := Successors(), [];
      ghost var goal := ReadNodes(input.unread, n, nodes.Keys, []);
      var i := 0;
      while i < n
        invariant i <= n && !input.eof && Valid()
        invariant fresh(nodes.Values - old(nodes.Values))
        invariant ReadNodes(input.unread, n - i, nodes.Keys, done) == goal
        invariant Successors() == Stored(start, done, value)
      {
        code, done := LoadNext(input, value, n - i, start, done, goal);
        if code != OK { return; }
        i := i + 1;
      }
      code := OK;
    }

    method PostprocessNode(s: Symbol)
      requires Valid() && s in nodes
      modifies At(s)`sorted
      ensures Listed(s)
      ensures forall t :: old(Listed(t)) ==> Listed(t)
    {
      nodes[s].Postprocess();
    }

    method PostprocessNodes()
      requires Valid()
      modifies nodes.Values`sorted
      ensures forall s :: s in nodes ==> Listed(s)
    {
      var todo := nodes.Keys;
      while todo != {}
        invariant todo <= nodes.Keys
        invariant forall s :: s in nodes.Keys - todo ==> Listed(s)
        decreases todo
      {
        var s :| s in todo;
        PostprocessNode(s);
        todo := todo - {s};
      }
    }

    method Clear()
      modifies this
      ensures nodes == map[] && firstCounts == map[] && firstProbs == map[] && firstSorted == []
    {
      nodes, firstCounts, firstProbs, firstSorted := map[], map[], map[], [];
    }

    // What follows the header and the version.
    method LoadLists(input: InputStream, value: ToValue) returns (code: Code)
      requires Valid() && !input.eof
      modifies input, this`nodes, this`firstSorted
      ensures Valid()
      ensures fresh(nodes.Values - old(nodes.Values))
      ensures var l := MarkovFormat.LoadLists(old(input.unread), old(nodes.Keys));
              && code == l.code && input.unread == l.rest
              && firstSorted == old(firstSorted) + SharesOf(l.first, value)
              && Successors() == Stored(old(Successors()), l.nodes, value)
    {
      var n := input.GetU32();
      if input.eof { return BAD_SYMBOL_COUNT_PREMATURE_EOF; }
      code := LoadFirst(input, n, value);
      if code != OK { return; }
      n := input.GetU32();
      if input.eof { return BAD_SYMBOL_COUNT_PREMATURE_EOF; }
      assert Successors() == old(Successors());
      code := LoadNodes(input, n, value);
    }

    method LoadContents(input: InputStream, value: ToValue) returns (code: Code)
      requires Valid() && !input.eof
      modifies input, this`nodes, this`firstSorted
      ensures Valid()
      ensures fresh(nodes.Values - old(nodes.Values))
      ensures var l := Load(old(input.unread), old(nodes.Keys));
              && code == l.code && input.unread == l.rest
              && firstSorted == old(firstSorted) + SharesOf(l.first, value)
              && Successors() == Stored(old(Successors()), l.nodes, value)
    {
      ghost var b := input.unread;
      var header := input.Get(|HEADER|);
      if input.eof { return BAD_HEADER_PREMATURE_EOF; }
      if header != HEADER { return BAD_HEADER; }
      var version := input.Get(1);
      if input.eof { return BAD_VERSION_PREMATURE_EOF; }
      if version[0] != VERSION { return BAD_VERSION; }
      assert b[4..][1..] == b[5..];
      assert Successors() == old(Successors());
      code := LoadLists(input, value);
    }

    // good: the state of the stream before
    method LoadBinary(input: InputStream, good: bool, doClear: bool, value: ToValue) returns (code: Code)
      requires Valid()
      modifies input, this, nodes.Values`sorted
      ensures Valid()
      ensures !good || old(input.eof) ==>
                && code == OK && input.unread == old(input.unread)
                && firstSorted == (if doClear then [] else old(firstSorted))
                && Successors() == if doClear then map[] else old(Successors())
      ensures firstCounts == (if doClear then map[] else old(firstCounts))
      ensures firstProbs == (if doClear then map[] else old(firstProbs))
      ensures good && !old(input.eof) ==>
                var l := Load(old(input.unread), if doClear then {} else old(nodes.Keys));
                && code == l.code && input.unread == l.rest
                && firstSorted == (if doClear then [] else old(firstSorted)) + SharesOf(l.first, value)
                && Successors() == Stored(if doClear then map[] else old(Successors()), l.nodes, value)
      ensures code == OK ==> forall s :: s in nodes ==> Listed(s)
    {
      if doClear { Clear(); }
      assert nodes.Keys == if doClear then {} else old(nodes.Keys);
      assert Successors() == if doClear then map[] else old(Successors());
      code := OK;
      if good && !input.eof {
        code := LoadContents(input, value);
        if code != OK { return; }
      }
      PostprocessNodes();
    }

    method LoadRow(input: InputStream, c: Symbol, value: ToValue) returns (code: Code, ghost got: seq<Item>)
      requires Valid() && !input.eof && c in nodes && Successors()[c] == map[]
      modifies input, At(c)`probs
      ensures ReadRow(old(input.unread), c) == Read(code, [Entry(c, got)], input.unread)
      ensures input.eof == (code != OK)
      ensures Successors() == old(Successors())[c := Overlay(got, value)]
    {
      var size := input.GetU32();
      if input.eof { return BAD_NODE_COUNT_PREMATURE_EOF, []; }
      code, got := LoadSuccessors(input, nodes[c], size, value);
    }
  }

  // The successors of a new node.
  method LoadSuccessors(input: InputStream, node: Node, n: nat, value: ToValue) returns (code: Code, ghost got: seq<Item>)
    requires !input.eof && node.probs == map[]
    modifies input, node`probs
    ensures ReadItems(old(input.unread), n, []) == Read(code, got, input.unread)
    ensures input.eof == (code != OK)
    ensures node.probs == Overlay(got, value)
  {
    var i := 0;
    got := [];
    while i < n
      invariant i <= n && !input.eof
      invariant ReadItems(input.unread, n - i, got) == ReadItems(old(input.unread), n, [])
      invariant node.probs == Overlay(got, value)
    {
      ghost var b := input.unread;
      var c := input.GetU32();
      if input.eof { return BAD_SYMBOL_PREMATURE_EOF, got; }
      var p := input.GetU64();
      if input.eof { return BAD_PROBABILITY_PREMATURE_EOF, got; }
      assert b[4..][8..] == b[12..];
      OverlaySnoc(got, Item(c, p), value);
      got := got + [Item(c, p)];
      node.AddSuccessor(c, value(p));
      i := i + 1;
    }
    code := OK;
  }

  method WriteShares(list: seq<Share>, bits: ToBits) returns (out: seq<Byte>)
    ensures out == PrintItems(ItemsOf(list, bits))
  {
    out := [];
    var i := 0;
    while i < |list|
      invariant i <= |list|
      invariant out == PrintItems(ItemsOf(list[..i], bits))
    {
      var e := ItemOf(list[i], bits);
      assert ItemsOf(list[..i + 1], bits) == ItemsOf(list[..i], bits) + [e];
      PrintItemsSnoc(ItemsOf(list[..i], bits), e);
      out := out + (LittleEndian(e.symbol, WORD) + LittleEndian(e.bits, DOUBLE));
      i := i + 1;
    }
    assert list[..i] == list;
  }

  // The first share of the symbol, or the end of the list.
  method FindSymbol(list: seq<Share>, s: Symbol) returns (i: nat)
    ensures i == |list| <==> s !in AsMap(list)
    ensures i < |list| ==> list[i].symbol == s && list[i].probability == AsMap(list)[s]
    ensures i <= |list|
  {
    i := 0;
    assert list[0..] == list;
    while i < |list| && list[i].symbol != s
      invariant i <= |list|
      invariant s in AsMap(list) <==> s in AsMap(list[i..])
      invariant s in AsMap(list) ==> AsMap(list)[s] == AsMap(list[i..])[s]
    {
      assert list[i..][1..] == list[i + 1..];
      i := i + 1;
    }
  }
}
