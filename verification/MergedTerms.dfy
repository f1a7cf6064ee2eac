/** The terms of merged segments, in the order of an ordinal map that names for each
    global ordinal the first segment that has its term, and where. */
module MergedTerms {
  import opened Terms
  import opened Options

  datatype OrdinalMap = OrdinalMap(firstSegments: seq<nat>, firstOrds: seq<nat>)

  ghost predicate InSegment(subs: seq<seq<Term>>, m: OrdinalMap, g: nat) {
    && g < |m.firstSegments| == |m.firstOrds|
    && m.firstSegments[g] < |subs| && m.firstOrds[g] < |subs[m.firstSegments[g]]|
  }

  ghost predicate RisesAt(m: OrdinalMap, g: nat, h: nat) {
    && g < |m.firstSegments| == |m.firstOrds| && h < |m.firstOrds|
    && (m.firstSegments[g] == m.firstSegments[h] ==> m.firstOrds[g] < m.firstOrds[h])
  }

  /** Global ordinals lie in their segments, and rise within each. */
  ghost predicate MapOk(subs: seq<seq<Term>>, m: OrdinalMap) {
    && |m.firstSegments| == |m.firstOrds|
    && (forall g: nat :: g < |m.firstOrds| ==> InSegment(subs, m, g))
    && (forall g: nat, h: nat :: g < h < |m.firstOrds| ==> RisesAt(m, g, h))
  }

  function Total(cursors: seq<int>): int {
    if cursors == [] then 0 else Total(cursors[..|cursors| - 1]) + cursors[|cursors| - 1] + 1
  }

  function TermCount(subs: seq<seq<Term>>): nat {
    if subs == [] then 0 else TermCount(subs[..|subs| - 1]) + |subs[|subs| - 1]|
  }

  lemma {:induction false} TotalStep(cursors: seq<int>, s: nat)
    requires s < |cursors|
    ensures Total(cursors[s := cursors[s] + 1]) == Total(cursors) + 1
    decreases |cursors|
  {
    var n := |cursors| - 1;
    var after := cursors[s := cursors[s] + 1];
    if s < n {
      TotalStep(cursors[..n], s);
      assert after[..n] == cursors[..n][s := cursors[..n][s] + 1];
    } else {
      assert after[..n] == cursors[..n];
    }
  }

  lemma {:induction false} TotalBound(cursors: seq<int>, subs: seq<seq<Term>>)
    requires |cursors| == |subs| && forall s :: 0 <= s < |subs| ==> cursors[s] < |subs[s]|
    ensures Total(cursors) <= TermCount(subs)
    decreases |subs|
  {
    if subs != [] {
      var n := |subs| - 1;
      TotalBound(cursors[..n], subs[..n]);
    }
  }

  lemma {:induction false} TotalFresh(n: nat)
    ensures Total(seq(n, _ => -1)) == 0
  {
    if n > 0 {
      assert seq(n, _ => -1)[..n - 1] == seq(n - 1, _ => -1);
      TotalFresh(n - 1);
    }
  }

  ghost predicate FirstIs(m: OrdinalMap, g: nat, s: nat, o: int) {
    g < |m.firstSegments| == |m.firstOrds| && m.firstSegments[g] == s && m.firstOrds[g] == o
  }

  ghost predicate Ahead(m: OrdinalMap, g: nat, s: nat, c: int) {
    g < |m.firstSegments| == |m.firstOrds| && (m.firstSegments[g] == s ==> c < m.firstOrds[g])
  }

  ghost predicate Reached(m: OrdinalMap, ord: int, s: nat, o: int) {
    exists g: nat :: g <= ord && FirstIs(m, g, s, o)
  }

  /** The cursor of segment s stands, not exhausted, where the last global ordinal up to
      this one that is first there has its term, and before those of all later ones. */
  ghost predicate Behind(subs: seq<seq<Term>>, m: OrdinalMap, ord: int, s: nat, c: int) {
    && s < |subs| && -1 <= c < |subs[s]|
    && (forall g: nat :: ord < g < |m.firstOrds| ==> Ahead(m, g, s, c))
    && (c >= 0 ==> Reached(m, ord, s, c))
  }

  ghost predicate AllBehind(subs: seq<seq<Term>>, m: OrdinalMap, ord: int, cursors: seq<int>) {
    && |cursors| == |subs|
    && forall s: nat :: s < |subs| ==> Behind(subs, m, ord, s, cursors[s])
  }

  lemma StaysBehind(subs: seq<seq<Term>>, m: OrdinalMap, ord: int, next: int, s: nat, c: int)
    requires Behind(subs, m, ord, s, c) && next == ord + 1
    ensures Behind(subs, m, next, s, c)
  {
    if c >= 0 {
      var g: nat :| g <= ord && FirstIs(m, g, s, c);
      assert g <= next && FirstIs(m, g, s, c);
    }
  }

  lemma ExhaustedBehind(subs: seq<seq<Term>>, m: OrdinalMap, ord: int, next: int, cursors: seq<int>)
    requires AllBehind(subs, m, ord, cursors) && next == ord + 1
    ensures AllBehind(subs, m, next, cursors)
  {
    forall s: nat | s < |subs| ensures Behind(subs, m, next, s, cursors[s]) {
      StaysBehind(subs, m, ord, next, s, cursors[s]);
    }
  }

  /** Moving the cursor of the next global ordinal's segment to its place keeps all
      cursors behind, and passes no place that is still to come. */
  lemma NextBehind(subs: seq<seq<Term>>, m: OrdinalMap, ord: int, next: nat, cursors: seq<int>, after: seq<int>)
    requires MapOk(subs, m) && AllBehind(subs, m, ord, cursors) && next == ord + 1 && next < |m.firstOrds|
    requires m.firstSegments[next] < |cursors| && after == cursors[m.firstSegments[next] := m.firstOrds[next]]
    ensures AllBehind(subs, m, next, after)
  {
    var t, o := m.firstSegments[next], m.firstOrds[next];
    forall s: nat | s < |subs| ensures Behind(subs, m, next, s, after[s]) {
      if s != t {
        StaysBehind(subs, m, ord, next, s, cursors[s]);
      } else {
        assert InSegment(subs, m, next) && FirstIs(m, next, t, o);
        forall h: nat | next < h < |m.firstOrds| ensures Ahead(m, h, t, o) {
          assert RisesAt(m, next, h);
        }
      }
    }
  }

  lemma {:induction false} CursorsInRange(subs: seq<seq<Term>>, m: OrdinalMap, ord: int, cursors: seq<int>)
    requires AllBehind(subs, m, ord, cursors)
    ensures Total(cursors) <= TermCount(subs)
  {
    forall s: nat | s < |subs| ensures cursors[s] < |subs[s]| {
      assert Behind(subs, m, ord, s, cursors[s]);
    }
    TotalBound(cursors, subs);
  }

  class MergedTermsEnum {
    const subs: seq<seq<Term>>
    const ordinalMap: OrdinalMap
    const valueCount: nat
    var ord: int
    var subNum: nat
    var cursors: seq<int>
    /** How often a sub-enum was advanced. */
    ghost var advances: nat

    ghost predicate Setup() {
      MapOk(subs, ordinalMap) && valueCount == |ordinalMap.firstOrds|
    }

    ghost predicate Valid()
      reads this
    {
      && ord >= -1 && AllBehind(subs, ordinalMap, ord, cursors)
      && advances == Total(cursors)
      && (0 <= ord < valueCount ==> subNum < |cursors| && FirstIs(ordinalMap, ord, subNum, cursors[subNum]))
    }

    constructor (ordinalMap: OrdinalMap, subs: seq<seq<Term>>)
      requires MapOk(subs, ordinalMap)
      ensures Setup() && Valid() && ord == -1
      ensures this.subs == subs && this.ordinalMap == ordinalMap
    {
      this.subs, this.ordinalMap, valueCount := subs, ordinalMap, |ordinalMap.firstOrds|;
      ord, subNum, cursors, advances := -1, 0, seq(|subs|, _ => -1), 0;
      new;
      TotalFresh(|subs|);
    }

    /** Advances one sub-enum until it has reached an ordinal. */
    method AdvanceSub(s: nat, o: nat) returns (term: Option<Term>)
      requires s < |cursors| == |subs| && -1 <= cursors[s] < o < |subs[s]| && advances == Total(cursors)
      modifies this`cursors, this`advances, this`subNum
      ensures cursors == old(cursors)[s := o] && advances == Total(cursors)
      ensures subNum == s && term == Some(subs[s][o])
    {
      while true
        invariant |cursors| == |subs| && -1 <= cursors[s] < o && cursors == old(cursors)[s := cursors[s]]
        invariant advances == Total(cursors)
        decreases o - cursors[s]
      {
        TotalStep(cursors, s);
        cursors, advances := cursors[s := cursors[s] + 1], advances + 1;
        var end := cursors[s] >= |subs[s]|;
        subNum := s;
        if cursors[s] >= o {
          return if end then None else Some(subs[s][cursors[s]]);
        }
      }
    }

    /** Yields the term of the next global ordinal, and nothing after the last. */
    method Next() returns (term: Option<Term>)
      requires Setup() && Valid()
      modifies this
      ensures Valid() && ord == old(ord) + 1
      ensures ord >= valueCount ==> term == None && cursors == old(cursors)
      ensures ord < valueCount ==>
                && InSegment(subs, ordinalMap, ord)
                && subNum == ordinalMap.firstSegments[ord] && cursors[subNum] == ordinalMap.firstOrds[ord]
                && term == Some(subs[subNum][cursors[subNum]])
                && cursors == old(cursors)[ordinalMap.firstSegments[ord] := ordinalMap.firstOrds[ord]]
      ensures advances <= TermCount(subs)
    {
      ord := ord + 1;
      if ord >= valueCount {
        ExhaustedBehind(subs, ordinalMap, ord - 1, ord, cursors);
        CursorsInRange(subs, ordinalMap, ord, cursors);
        return None;
      }
      assert InSegment(subs, ordinalMap, ord);
      var s, o := ordinalMap.firstSegments[ord], ordinalMap.firstOrds[ord];
      assert Behind(subs, ordinalMap, ord - 1, s, cursors[s]) && Ahead(ordinalMap, ord, s, cursors[s]);
      ghost var start := cursors;
      term := AdvanceSub(s, o);
      NextBehind(subs, ordinalMap, ord - 1, ord, start, cursors);
      CursorsInRange(subs, ordinalMap, ord, cursors);
    }

    /** The term last yielded. */
    method Term() returns (term: Term)
      requires Setup() && Valid() && ord < valueCount
      ensures ord < 0 ==> term == []
      ensures ord >= 0 ==>
                && InSegment(subs, ordinalMap, ord)
                && subNum == ordinalMap.firstSegments[ord] && cursors[subNum] == ordinalMap.firstOrds[ord]
                && term == subs[subNum][cursors[subNum]]
    {
      if ord < 0 { return []; }
      assert InSegment(subs, ordinalMap, ord);
      term := subs[subNum][cursors[subNum]];
    }
  }

  // ----- merging

  /** The global terms are in order, and the map gives for each a place that has it. */
  ghost predicate Numbers(subs: seq<seq<Term>>, m: OrdinalMap, globals: seq<Term>) {
    && |globals| == |m.firstSegments| == |m.firstOrds| && Sorted(globals)
    && forall g: nat :: g < |globals| ==> InSegment(subs, m, g) && subs[m.firstSegments[g]][m.firstOrds[g]] == globals[g]
  }

  /** Where the segments are sorted, such a map rises within each of them. */
  lemma NumberingRises(subs: seq<seq<Term>>, m: OrdinalMap, globals: seq<Term>)
    requires Numbers(subs, m, globals) && forall s :: 0 <= s < |subs| ==> Sorted(subs[s])
    ensures MapOk(subs, m)
  {
    forall g: nat, h: nat | g < h < |m.firstOrds| ensures RisesAt(m, g, h) {
      assert InSegment(subs, m, g) && InSegment(subs, m, h);
      var s := m.firstSegments[g];
      if s == m.firstSegments[h] {
        var i, j := m.firstOrds[g], m.firstOrds[h];
        assert Before(globals, g, h);
        if j < i { assert Before(subs[s], j, i); LessTrans(globals[g], globals[h], globals[g]); }
      }
    }
  }

  /** Iterating over the merged terms gives every global term once, in order. */
  method Merge(subs: seq<seq<Term>>, m: OrdinalMap, ghost globals: seq<Term>) returns (terms: seq<Term>)
    requires Numbers(subs, m, globals) && forall s :: 0 <= s < |subs| ==> Sorted(subs[s])
    ensures terms == globals && Sorted(terms)
    ensures forall g :: 0 <= g < |terms| ==> terms[g] == subs[m.firstSegments[g]][m.firstOrds[g]]
  {
    NumberingRises(subs, m, globals);
    var merged := new MergedTermsEnum(m, subs);
    terms := [];
    var term := merged.Next();
    while term.Some?
      invariant merged.Setup() && merged.Valid() && merged.subs == subs && merged.ordinalMap == m
      invariant |terms| == merged.ord <= |globals| && terms == globals[..|terms|]
      invariant term == if merged.ord < |globals| then Some(globals[merged.ord]) else None
      decreases |globals| - merged.ord
    {
      terms := terms + [term.value];
      term := merged.Next();
    }
    forall g | 0 <= g < |terms| ensures terms[g] == subs[m.firstSegments[g]][m.firstOrds[g]] { assert InSegment(subs, m, g); }
  }
}
