/** A filter that drops tokens and adds the position increments of the dropped ones to the
    next token that is kept, or to the end of the stream. */
module TokenFilter {

  datatype Token<T> = Token(term: T, posInc: nat)

  /** The position after the first n tokens. */
  function Sum<T>(tokens: seq<Token<T>>, n: nat): nat
    requires n <= |tokens|
  {
    if n == 0 then 0 else Sum(tokens, n - 1) + tokens[n - 1].posInc
  }

  /** Those of the first n tokens that are accepted, with their absolute positions. */
  function Kept<T>(tokens: seq<Token<T>>, n: nat, accept: T -> bool): seq<(T, nat)>
    requires n <= |tokens|
  {
    if n == 0 then []
    else if accept(tokens[n - 1].term) then Kept(tokens, n - 1, accept) + [(tokens[n - 1].term, Sum(tokens, n))]
    else Kept(tokens, n - 1, accept)
  }

  function Always<T>(): T -> bool { _ => true }

  function Both<T>(p: T -> bool, q: T -> bool): T -> bool { x => p(x) && q(x) }

  /** All tokens with their absolute positions. */
  function Absolute<T>(tokens: seq<Token<T>>): seq<(T, nat)> { Kept(tokens, |tokens|, Always()) }

  ghost predicate NoneAccepted<T>(tokens: seq<Token<T>>, accept: T -> bool, lo: nat, hi: nat) {
    hi <= |tokens| && forall i :: lo <= i < hi ==> !accept(tokens[i].term)
  }

  lemma {:induction false} KeptSkips<T>(tokens: seq<Token<T>>, accept: T -> bool, lo: nat, hi: nat)
    requires lo <= hi && NoneAccepted(tokens, accept, lo, hi)
    ensures Kept(tokens, hi, accept) == Kept(tokens, lo, accept)
    decreases hi
  {
    if lo < hi { KeptSkips(tokens, accept, lo, hi - 1); }
  }

  lemma {:induction false} SumPrefix<T>(a: seq<Token<T>>, b: seq<Token<T>>, n: nat)
    requires n <= |a| && n <= |b| && forall i :: 0 <= i < n ==> a[i] == b[i]
    ensures Sum(a, n) == Sum(b, n) && forall p: T -> bool :: Kept(a, n, p) == Kept(b, n, p)
    decreases n
  {
    if n > 0 { SumPrefix(a, b, n - 1); }
  }

  lemma {:induction false} AbsoluteAppend<T>(tokens: seq<Token<T>>, t: Token<T>)
    ensures var all := tokens + [t];
            && Sum(all, |all|) == Sum(tokens, |tokens|) + t.posInc
            && Absolute(all) == Absolute(tokens) + [(t.term, Sum(all, |all|))]
  {
    SumPrefix(tokens, tokens + [t], |tokens|);
  }

  /** The tokens of a stream, and the shared attributes they are read from. */
  class TokenStream<T> {
    const tokens: seq<Token<T>>
    /** The increment left after the last token. */
    const final: nat
    const hasPositionIncrement: bool
    var next: nat
    var term: T
    var posInc: nat

    ghost predicate Valid()
      reads this`next
    {
      next <= |tokens|
    }

    constructor (tokens: seq<Token<T>>, final: nat, hasPositionIncrement: bool, term: T)
      ensures Valid() && next == 0
      ensures this.tokens == tokens && this.final == final && this.hasPositionIncrement == hasPositionIncrement
    {
      this.tokens, this.final, this.hasPositionIncrement := tokens, final, hasPositionIncrement;
      next, this.term, posInc := 0, term, 0;
    }

    method IncrementToken() returns (ok: bool)
      requires Valid()
      modifies this
      ensures Valid() && (ok <==> old(next) < |tokens|)
      ensures ok ==> next == old(next) + 1 && Token(term, posInc) == tokens[old(next)]
      ensures !ok ==> next == old(next)
    {
      if next == |tokens| { return false; }
      term, posInc, next := tokens[next].term, tokens[next].posInc, next + 1;
      ok := true;
    }

    method End()
      requires Valid()
      modifies this`posInc
      ensures posInc == final
    {
      posInc := final;
    }

    method Reset()
      modifies this
      ensures Valid() && next == 0
    {
      next := 0;
    }
  }

  datatype Result = Found | Exhausted | MissingPositionIncrement

  /** The token before next is the first one from on that is accepted, and the increment
      leads to it from the position before. */
  ghost predicate FoundNext<T>(tokens: seq<Token<T>>, accept: T -> bool, from: nat, next: nat, term: T, posInc: nat) {
    && from < next <= |tokens| && NoneAccepted(tokens, accept, from, next - 1)
    && accept(term) && term == tokens[next - 1].term && Sum(tokens, from) + posInc == Sum(tokens, next)
  }

  /** No token from on is accepted, and skipped is the way from there to the end. */
  ghost predicate RanOut<T>(tokens: seq<Token<T>>, accept: T -> bool, from: nat, skipped: nat) {
    && from <= |tokens| && NoneAccepted(tokens, accept, from, |tokens|)
    && Sum(tokens, from) + skipped == Sum(tokens, |tokens|)
  }

  /** No token between from and at is accepted, and skipped is the way between them. */
  ghost predicate Skipping<T>(tokens: seq<Token<T>>, accept: T -> bool, from: nat, at: nat, skipped: nat) {
    && from <= at <= |tokens| && NoneAccepted(tokens, accept, from, at)
    && Sum(tokens, from) + skipped == Sum(tokens, at)
  }

  /** What a filter makes of a token of its input: its own next token, or one more to skip. */
  lemma FilterStep<T>(tokens: seq<Token<T>>, below: T -> bool, accept: T -> bool, from: nat, at: nat, skipped: nat, next: nat, term: T, posInc: nat)
    requires Skipping(tokens, Both(below, accept), from, at, skipped) && FoundNext(tokens, below, at, next, term, posInc)
    ensures accept(term) ==> FoundNext(tokens, Both(below, accept), from, next, term, posInc + skipped)
    ensures !accept(term) ==> Skipping(tokens, Both(below, accept), from, next, skipped + posInc)
  {
  }

  lemma FilterRunsOut<T>(tokens: seq<Token<T>>, below: T -> bool, accept: T -> bool, from: nat, at: nat, skipped: nat, rest: nat)
    requires Skipping(tokens, Both(below, accept), from, at, skipped) && RanOut(tokens, below, at, rest)
    ensures RanOut(tokens, Both(below, accept), from, skipped + rest)
  {
  }

  /** What a filter reads from: a stream, or another filter. */
  datatype Stage<T> = Tokens(stream: TokenStream<T>) | Filter(filter: FilteringTokenFilter<T>) {

    ghost function Depth(): nat { if Tokens? then 0 else filter.depth }

    /** Filters end in a stream. */
    ghost predicate Ok()
      decreases Depth()
    {
      Filter? ==> filter.input.Depth() < filter.depth && filter.input.Ok()
    }

    /** The stream at the bottom, whose attributes all filters share. */
    function Stream(): TokenStream<T>
      requires Ok()
      decreases Depth()
    {
      if Tokens? then stream else filter.input.Stream()
    }

    ghost function Filters(): set<FilteringTokenFilter<T>>
      requires Ok()
      ensures forall f :: f in Filters() ==> f.depth <= Depth()
      decreases Depth()
    {
      if Tokens? then {} else {filter} + filter.input.Filters()
    }

    /** What all filters accept. */
    ghost function Accept(): T -> bool
      requires Ok()
      decreases Depth()
    {
      if Tokens? then Always() else Both(filter.input.Accept(), filter.accept)
    }

    /** What the filters have skipped since their last tokens. */
    ghost function Skipped(): nat
      requires Ok()
      reads Filters()`skippedPositions
      decreases Depth()
    {
      if Tokens? then 0 else filter.skippedPositions + filter.input.Skipped()
    }

    predicate MissingIncrement()
      requires Ok()
    {
      Filter? && !Stream().hasPositionIncrement
    }

    /** Moves to the next token that all filters accept. */
    method IncrementToken() returns (r: Result)
      requires Ok() && Stream().Valid()
      modifies Filters(), Stream()
      ensures Stream().Valid()
      ensures r == MissingPositionIncrement <==> MissingIncrement()
      ensures r == Found ==> FoundNext(Stream().tokens, Accept(), old(Stream().next), Stream().next, Stream().term, Stream().posInc)
      ensures r == Exhausted ==> RanOut(Stream().tokens, Accept(), old(Stream().next), Skipped()) && Stream().next == |Stream().tokens|
      decreases Depth(), 1
    {
      match this {
        case Tokens(stream) =>
          var ok := stream.IncrementToken();
          r := if ok then Found else Exhausted;
        case Filter(filter) =>
          r := filter.IncrementToken();
      }
    }

    method End()
      requires Ok() && Stream().Valid()
      modifies Stream()`posInc
      ensures Stream().posInc == Stream().final + old(Skipped())
      decreases Depth(), 1
    {
      match this {
        case Tokens(stream) => stream.End();
        case Filter(filter) => filter.End();
      }
    }

    method Reset()
      requires Ok()
      modifies Filters(), Stream()
      ensures Stream().Valid() && Stream().next == 0 && Skipped() == 0
      decreases Depth(), 1
    {
      match this {
        case Tokens(stream) => stream.Reset();
        case Filter(filter) => filter.Reset();
      }
    }
  }

  class FilteringTokenFilter<T> {
    const input: Stage<T>
    const accept: T -> bool
    /** How many filters there are down to the stream. */
    ghost const depth: nat
    var skippedPositions: nat

    constructor (input: Stage<T>, accept: T -> bool)
      requires input.Ok()
      ensures this.input == input && this.accept == accept && skippedPositions == 0 && Filter(this).Ok()
    {
      this.input, this.accept, skippedPositions := input, accept, 0;
      depth := input.Depth() + 1;
    }

    /** Moves to the next token of the input that is accepted. */
    method IncrementToken() returns (r: Result)
      requires Filter(this).Ok() && input.Stream().Valid()
      modifies Filter(this).Filters(), input.Stream()
      ensures input.Stream().Valid()
      ensures r == MissingPositionIncrement <==> !input.Stream().hasPositionIncrement
      ensures r == Found ==>
                FoundNext(input.Stream().tokens, Filter(this).Accept(), old(input.Stream().next),
                          input.Stream().next, input.Stream().term, input.Stream().posInc)
      ensures r == Exhausted ==>
                && RanOut(input.Stream().tokens, Filter(this).Accept(), old(input.Stream().next), Filter(this).Skipped())
                && input.Stream().next == |input.Stream().tokens|
      decreases depth, 0
    {
      skippedPositions := 0;
      var att := input.Stream();
      if !att.hasPositionIncrement { return MissingPositionIncrement; }
      ghost var from, below := att.next, input.Accept();
      while true
        invariant att.Valid() && Skipping(att.tokens, Both(below, accept), from, att.next, skippedPositions)
        decreases |att.tokens| - att.next
      {
        ghost var at := att.next;
        r := input.IncrementToken();
        if r == Exhausted {
          FilterRunsOut(att.tokens, below, accept, from, at, skippedPositions, input.Skipped());
          return;
        }
        FilterStep(att.tokens, below, accept, from, at, skippedPositions, att.next, att.term, att.posInc);
        if accept(att.term) {
          if skippedPositions != 0 { att.posInc := att.posInc + skippedPositions; }
          return;
        }
        skippedPositions := skippedPositions + att.posInc;
      }
    }

    method End()
      requires Filter(this).Ok() && input.Stream().Valid()
      modifies input.Stream()`posInc
      ensures input.Stream().posInc == input.Stream().final + old(Filter(this).Skipped())
      decreases depth, 0
    {
      input.End();
      var att := input.Stream();
      att.posInc := att.posInc + skippedPositions;
    }

    method Reset()
      requires Filter(this).Ok()
      modifies Filter(this).Filters(), input.Stream()
      ensures input.Stream().Valid() && input.Stream().next == 0 && Filter(this).Skipped() == 0
      decreases depth, 0
    {
      input.Reset();
      skippedPositions := 0;
    }
  }

  // ----- whole streams

  lemma {:induction false} FoundKept<T>(tokens: seq<Token<T>>, accept: T -> bool, from: nat, next: nat, term: T, posInc: nat, out: seq<Token<T>>)
    requires FoundNext(tokens, accept, from, next, term, posInc)
    requires Absolute(out) == Kept(tokens, from, accept) && Sum(out, |out|) == Sum(tokens, from)
    ensures var all := out + [Token(term, posInc)];
            Absolute(all) == Kept(tokens, next, accept) && Sum(all, |all|) == Sum(tokens, next)
  {
    AbsoluteAppend(out, Token(term, posInc));
    KeptSkips(tokens, accept, from, next - 1);
  }

  lemma {:induction false} RanOutKept<T>(tokens: seq<Token<T>>, accept: T -> bool, from: nat, skipped: nat)
    requires RanOut(tokens, accept, from, skipped)
    ensures Kept(tokens, |tokens|, accept) == Kept(tokens, from, accept)
  {
    KeptSkips(tokens, accept, from, |tokens|);
  }

  /** The tokens that a reset stage gives up to the first false. */
  method Emitted<T>(s: Stage<T>) returns (out: seq<Token<T>>)
    requires s.Ok() && !s.MissingIncrement()
    modifies s.Filters(), s.Stream()
    ensures s.Stream().Valid() && s.Stream().next == |s.Stream().tokens|
    ensures Absolute(out) == Kept(s.Stream().tokens, |s.Stream().tokens|, s.Accept())
    ensures Sum(out, |out|) + s.Skipped() == Sum(s.Stream().tokens, |s.Stream().tokens|)
  {
    s.Reset();
    out := [];
    var att := s.Stream();
    ghost var tokens, accept := att.tokens, s.Accept();
    var r := s.IncrementToken();
    ghost var seen := 0;
    while r == Found
      invariant att.Valid() && r != MissingPositionIncrement && seen <= |tokens|
      invariant Absolute(out) == Kept(tokens, seen, accept) && Sum(out, |out|) == Sum(tokens, seen)
      invariant r == Found ==> FoundNext(tokens, accept, seen, att.next, att.term, att.posInc)
      invariant r == Exhausted ==> RanOut(tokens, accept, seen, s.Skipped()) && att.next == |tokens|
      decreases |tokens| - seen, if r == Found then 1 else 0
    {
      FoundKept(tokens, accept, seen, att.next, att.term, att.posInc, out);
      out := out + [Token(att.term, att.posInc)];
      seen := att.next;
      r := s.IncrementToken();
    }
    RanOutKept(tokens, accept, seen, s.Skipped());
  }

  /** Some more calls that find nothing, then the end. */
  method Finish<T>(s: Stage<T>, extra: nat) returns (final: nat)
    requires s.Ok() && !s.MissingIncrement() && s.Stream().Valid() && s.Stream().next == |s.Stream().tokens|
    modifies s.Filters(), s.Stream()
    ensures final == s.Stream().final + if extra == 0 then old(s.Skipped()) else 0
  {
    var att := s.Stream();
    for i := 0 to extra
      invariant att.Valid() && att.next == |att.tokens|
      invariant s.Skipped() == if i == 0 then old(s.Skipped()) else 0
    {
      var r := s.IncrementToken();
    }
    s.End();
    final := att.posInc;
  }

  /** The accepted ones of the first n tokens, in order. */
  ghost function Picked<T>(tokens: seq<Token<T>>, n: nat, accept: T -> bool): (at: seq<nat>)
    requires n <= |tokens|
    ensures forall m :: 0 <= m < |at| ==> at[m] < n
  {
    if n == 0 then []
    else if accept(tokens[n - 1].term) then Picked(tokens, n - 1, accept) + [n - 1]
    else Picked(tokens, n - 1, accept)
  }

  ghost predicate Rises(at: seq<nat>) { forall m, k :: 0 <= m < k < |at| ==> at[m] < at[k] }

  lemma RisesMore(at: seq<nat>, n: nat)
    requires Rises(at) && forall m :: 0 <= m < |at| ==> at[m] < n
    ensures Rises(at + [n])
  {
  }

  lemma {:induction false} PickedRise<T>(tokens: seq<Token<T>>, n: nat, accept: T -> bool)
    requires n <= |tokens|
    ensures Rises(Picked(tokens, n, accept))
    decreases n
  {
    if n > 0 {
      PickedRise(tokens, n - 1, accept);
      RisesMore(Picked(tokens, n - 1, accept), n - 1);
    }
  }

  lemma {:induction false} PickedIff<T>(tokens: seq<Token<T>>, n: nat, accept: T -> bool, i: nat)
    requires i < n <= |tokens|
    ensures i in Picked(tokens, n, accept) <==> accept(tokens[i].term)
    decreases n
  {
    if i < n - 1 { PickedIff(tokens, n - 1, accept, i); }
  }

  /** The kept tokens are those at the given places. */
  ghost predicate KeptAt<T>(tokens: seq<Token<T>>, kept: seq<(T, nat)>, at: seq<nat>) {
    |at| == |kept| && forall m :: 0 <= m < |at| ==> at[m] < |tokens| && kept[m] == (tokens[at[m]].term, Sum(tokens, at[m] + 1))
  }

  lemma {:induction false} KeptMore<T>(tokens: seq<Token<T>>, kept: seq<(T, nat)>, at: seq<nat>, n: nat)
    requires KeptAt(tokens, kept, at) && n < |tokens|
    ensures KeptAt(tokens, kept + [(tokens[n].term, Sum(tokens, n + 1))], at + [n])
  {
  }

  lemma {:induction false} KeptPicked<T>(tokens: seq<Token<T>>, n: nat, accept: T -> bool)
    requires n <= |tokens|
    ensures KeptAt(tokens, Kept(tokens, n, accept), Picked(tokens, n, accept))
    decreases n
  {
    if n > 0 {
      KeptPicked(tokens, n - 1, accept);
      KeptMore(tokens, Kept(tokens, n - 1, accept), Picked(tokens, n - 1, accept), n - 1);
    }
  }

  lemma {:induction false} AcceptIff<T>(s: Stage<T>, x: T)
    requires s.Ok()
    ensures s.Accept()(x) <==> forall f :: f in s.Filters() ==> f.accept(x)
    decreases s.Depth()
  {
    if s.Filter? { AcceptIff(s.filter.input, x); }
  }

  /** What was emitted are the tokens that all filters accept, where they were. */
  lemma EmittedAt<T>(s: Stage<T>, out: seq<Token<T>>) returns (at: seq<nat>)
    requires s.Ok() && Absolute(out) == Kept(s.Stream().tokens, |s.Stream().tokens|, s.Accept())
    ensures |at| == |out| && forall m, k :: 0 <= m < k < |at| ==> at[m] < at[k]
    ensures forall m :: 0 <= m < |at| ==>
              && at[m] < |s.Stream().tokens| && out[m].term == s.Stream().tokens[at[m]].term
              && Sum(out, m + 1) == Sum(s.Stream().tokens, at[m] + 1)
    ensures forall i: nat :: i < |s.Stream().tokens| ==>
              (i in at <==> forall f :: f in s.Filters() ==> f.accept(s.Stream().tokens[i].term))
  {
    var tokens := s.Stream().tokens;
    at := Picked(tokens, |tokens|, s.Accept());
    PlacesOf(tokens, s.Accept(), out, at);
    forall i: nat | i < |tokens| ensures i in at <==> forall f :: f in s.Filters() ==> f.accept(tokens[i].term) {
      PickedIff(tokens, |tokens|, s.Accept(), i);
      AcceptIff(s, tokens[i].term);
    }
  }

  lemma {:induction false} PlacesOf<T>(tokens: seq<Token<T>>, accept: T -> bool, out: seq<Token<T>>, at: seq<nat>)
    requires Absolute(out) == Kept(tokens, |tokens|, accept) && at == Picked(tokens, |tokens|, accept)
    ensures |at| == |out| && Rises(at)
    ensures forall m :: 0 <= m < |at| ==> at[m] < |tokens| && out[m].term == tokens[at[m]].term && Sum(out, m + 1) == Sum(tokens, at[m] + 1)
  {
    PickedRise(tokens, |tokens|, accept);
    KeptPicked(tokens, |tokens|, accept);
    AbsoluteAt(out, |out|);
    forall m | 0 <= m < |at| ensures out[m].term == tokens[at[m]].term && Sum(out, m + 1) == Sum(tokens, at[m] + 1) {
      assert Absolute(out)[m] == (out[m].term, Sum(out, m + 1));
    }
  }

  /** Consumes a stage as a caller does: reset, tokens up to the first false, some more
      calls that find nothing, end. Missing increments fail the first call. */
  method Consume<T>(s: Stage<T>, extra: nat)
    returns (ok: bool, out: seq<Token<T>>, final: nat, ghost at: seq<nat>)
    requires s.Ok()
    modifies s.Filters(), s.Stream()
    ensures ok <==> !s.MissingIncrement()
    ensures ok ==> Absolute(out) == Kept(s.Stream().tokens, |s.Stream().tokens|, s.Accept())
    ensures ok ==> Sum(out, |out|) <= Sum(s.Stream().tokens, |s.Stream().tokens|)
    ensures ok && extra == 0 ==> Sum(out, |out|) + final == Sum(s.Stream().tokens, |s.Stream().tokens|) + s.Stream().final
    ensures ok && extra > 0 ==> final == s.Stream().final
    ensures ok ==> |at| == |out| && forall m, k :: 0 <= m < k < |at| ==> at[m] < at[k]
    ensures ok ==> forall m :: 0 <= m < |at| ==>
              && at[m] < |s.Stream().tokens| && out[m].term == s.Stream().tokens[at[m]].term
              && Sum(out, m + 1) == Sum(s.Stream().tokens, at[m] + 1)
    ensures ok ==> forall i: nat :: i < |s.Stream().tokens| ==>
              (i in at <==> forall f :: f in s.Filters() ==> f.accept(s.Stream().tokens[i].term))
  {
    ok, at := !s.MissingIncrement(), [];
    if ok {
      out := Emitted(s);
      at := EmittedAt(s, out);
      final := Finish(s, extra);
    } else {
      out, final := [], 0;
    }
  }

  // ----- stacked filters

  lemma {:induction false} KeptCongruent<T>(tokens: seq<Token<T>>, n: nat, p: T -> bool, q: T -> bool)
    requires n <= |tokens| && forall i :: 0 <= i < n ==> p(tokens[i].term) == q(tokens[i].term)
    ensures Kept(tokens, n, p) == Kept(tokens, n, q)
  {
    if n > 0 { KeptCongruent(tokens, n - 1, p, q); }
  }

  function All<T>(ps: seq<T -> bool>): T -> bool {
    if ps == [] then Always() else Both(All(ps[..|ps| - 1]), ps[|ps| - 1])
  }

  lemma {:induction false} AbsoluteAt<T>(tokens: seq<Token<T>>, n: nat)
    requires n <= |tokens|
    ensures |Kept(tokens, n, Always())| == n
    ensures forall i :: 0 <= i < n ==> Kept(tokens, n, Always())[i] == (tokens[i].term, Sum(tokens, i + 1))
  {
    if n > 0 { AbsoluteAt(tokens, n - 1); }
  }

  /** Terms and absolute positions determine the tokens. */
  lemma AbsoluteInjective<T>(a: seq<Token<T>>, b: seq<Token<T>>)
    requires Absolute(a) == Absolute(b)
    ensures a == b
  {
    AbsoluteAt(a, |a|);
    AbsoluteAt(b, |b|);
    forall i | 0 <= i < |a| ensures a[i] == b[i] {
      assert Absolute(a)[i] == Absolute(b)[i];
      assert i > 0 ==> Absolute(a)[i - 1] == Absolute(b)[i - 1];
      assert Sum(a, i + 1) == Sum(a, i) + a[i].posInc && Sum(b, i + 1) == Sum(b, i) + b[i].posInc;
    }
  }

  /** One filter on top of another, for each condition. */
  method Stack<T>(input: TokenStream<T>, ps: seq<T -> bool>) returns (s: Stage<T>)
    ensures s.Ok() && s.Stream() == input && fresh(s.Filters()) && s.Accept() == All(ps) && (s.Filter? <==> ps != [])
  {
    s := Tokens(input);
    for i := 0 to |ps|
      invariant s.Ok() && s.Stream() == input && fresh(s.Filters()) && s.Accept() == All(ps[..i]) && (s.Filter? <==> i > 0)
    {
      var f := new FilteringTokenFilter(s, ps[i]);
      assert ps[..i + 1][..i] == ps[..i];
      s := Filter(f);
    }
    assert ps[..|ps|] == ps;
  }

  method StackedTokens<T>(tokens: seq<Token<T>>, final: nat, ps: seq<T -> bool>, blank: T)
    returns (out: seq<Token<T>>, end: nat)
    ensures Absolute(out) == Kept(tokens, |tokens|, All(ps))
    ensures Sum(out, |out|) + end == Sum(tokens, |tokens|) + final
  {
    var input := new TokenStream(tokens, final, true, blank);
    var stack := Stack(input, ps);
    var ok;
    ghost var at;
    ok, out, end, at := Consume(stack, 0);
  }

  /** Filters on top of each other give the tokens, and the end, of one filter by all the
      conditions. */
  method Stacked<T>(tokens: seq<Token<T>>, final: nat, ps: seq<T -> bool>, blank: T)
    returns (stacked: seq<Token<T>>, stackedEnd: nat, once: seq<Token<T>>, onceEnd: nat)
    ensures stacked == once && stackedEnd == onceEnd
    ensures Absolute(once) == Kept(tokens, |tokens|, All(ps))
    ensures forall m, k :: 0 <= m < |once| && 0 <= k < |ps| ==> ps[k](once[m].term)
  {
    stacked, stackedEnd := StackedTokens(tokens, final, ps, blank);
    once, onceEnd := StackedTokens(tokens, final, [All(ps)], blank);
    KeptCongruent(tokens, |tokens|, All([All(ps)]), All(ps));
    AbsoluteInjective(stacked, once);
    ghost var at := Picked(tokens, |tokens|, All(ps));
    KeptPicked(tokens, |tokens|, All(ps));
    AbsoluteAt(once, |once|);
    forall m, k | 0 <= m < |once| && 0 <= k < |ps| ensures ps[k](once[m].term) {
      assert Absolute(once)[m] == (once[m].term, Sum(once, m + 1)) && at[m] in at;
      PickedIff(tokens, |tokens|, All(ps), at[m]);
      AllIff(ps, once[m].term);
    }
  }

  lemma {:induction false} AllIff<T>(ps: seq<T -> bool>, x: T)
    ensures All(ps)(x) <==> forall k :: 0 <= k < |ps| ==> ps[k](x)
    decreases |ps|
  {
    if ps != [] { AllIff(ps[..|ps| - 1], x); }
  }
}
