// A chain in use: words learned and probabilities updated in any order.
module MarkovLife {
  import opened Records
  import opened Markov
  import opened MarkovTraining
  import opened MarkovNode
  import opened MarkovChain

  datatype Deed = Learn(word: Word) | Update

  // The words learned so far, and what the chain then holds.
  datatype State = State(words: seq<Word>, first: Counts, probs: Probabilities, pairs: PairTable, succ: Transitions)

  // No sum that update() divides by is 0.
  ghost predicate Divides(s: State) {
    && Divisible(s.pairs) && s.succ.Keys == s.pairs.Keys
    && (s.first == map[] || Divisor(s.first) > 0)
  }

  ghost function Do(s: State, d: Deed): State {
    match d
    case Learn(w) =>
      if w == [] then s
      else State(s.words + [w], Bump(s.first, w[0]), s.probs, PairsTrained(s.pairs, w), RowsTrained(s.succ, w))
    case Update =>
      if Divides(s) then s.(probs := s.probs + NodeShares(s.first), succ := SharesOver(s.succ, s.pairs)) else s
  }

  const NEW := State([], map[], map[], map[], map[])

  ghost function After(deeds: seq<Deed>): State {
    if deeds == [] then NEW else Do(After(deeds[..|deeds| - 1]), deeds[|deeds| - 1])
  }

  ghost predicate Sound(s: State) {
    TrainedTables(s.words, s.first, s.probs, s.pairs, s.succ)
  }

  lemma SoundStep(s: State, d: Deed)
    requires Sound(s)
    ensures Sound(Do(s, d))
  {
    if d.Learn? && d.word != [] {
      TrainedStep(s.words, s.first, s.probs, s.pairs, s.succ, d.word);
    } else if d.Update? && Divides(s) {
      UpdatedStep(s.words, s.first, s.probs, s.pairs, s.succ);
    }
  }

  // The counts are always those of the words learned so far.
  lemma {:induction false} AlwaysSound(deeds: seq<Deed>)
    ensures Sound(After(deeds))
  {
    if deeds == [] {
      EmptyTables();
    } else {
      AlwaysSound(deeds[..|deeds| - 1]);
      SoundStep(After(deeds[..|deeds| - 1]), deeds[|deeds| - 1]);
    }
  }

  // After an update, whatever came before it, the probabilities are those of all the
  // words learned so far.
  lemma UpdatedLife(deeds: seq<Deed>)
    requires Small(After(deeds).words)
    ensures var s := After(deeds + [Update]);
            && s.words == After(deeds).words
            && UpdatedTables(s.first, s.probs, s.pairs, s.succ)
  {
    assert (deeds + [Update])[..|deeds + [Update]| - 1] == deeds;
    var s := After(deeds);
    AlwaysSound(deeds);
    TrainedDivisors(s.first, s.pairs, s.words);
    UpdatedStep(s.words, s.first, s.probs, s.pairs, s.succ);
  }

  // They add up to 1, for the first symbols and after each symbol.
  lemma MassOfLife(deeds: seq<Deed>)
    requires Small(After(deeds).words)
    ensures var s := After(deeds + [Update]);
            && Mass(s.probs) == 1.0 && Nonnegative(s.probs) && Stochastic(s.succ)
            && forall x :: x in s.succ ==> Mass(s.succ[x]) == 1.0
  {
    UpdatedLife(deeds);
    AlwaysSound(deeds + [Update]);
    var s := After(deeds + [Update]);
    TrainedMass(s.first, s.pairs, s.words);
  }

  // And every score is the relative frequency in these words.
  lemma ScoreOfLife(deeds: seq<Deed>, w: Word)
    requires Small(After(deeds).words)
    ensures var s := After(deeds + [Update]);
            WordScore(s.probs, s.succ, w) == Frequency(After(deeds).words, w)
  {
    UpdatedLife(deeds);
    AlwaysSound(deeds + [Update]);
    var s := After(deeds + [Update]);
    ScoreIsFrequency(s.first, s.pairs, s.words, w);
  }

  ghost predicate Holds(chain: Chain, s: State)
    reads chain, chain.nodes.Values
  {
    && chain.Valid()
    && chain.firstCounts == s.first && chain.firstProbs == s.probs
    && chain.Pairs() == s.pairs && chain.Successors() == s.succ
  }

  // Each call on the object is one deed.
  method Train(chain: Chain, pwd: string, decode: string -> Word, ghost s: State)
    requires Holds(chain, s)
    modifies chain, chain.nodes.Values
    ensures Holds(chain, Do(s, Learn(if pwd == "" then [] else decode(pwd))))
    ensures fresh(chain.nodes.Values - old(chain.nodes.Values))
  {
    var ok := chain.Train(pwd, decode);
  }

  method Refresh(chain: Chain, ghost s: State)
    requires Holds(chain, s) && Divides(s)
    modifies chain, chain.nodes.Values
    ensures Holds(chain, Do(s, Update)) && chain.nodes == old(chain.nodes)
    ensures AsMap(chain.firstSorted) == Do(s, Update).probs
  {
    chain.Update();
  }
}
