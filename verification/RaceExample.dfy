/** A run in which two rotations of one token race: the loser's reuse verdict leaves the winner's token live. */
module RaceExample {
  import opened Text
  import opened RefreshStore
  import opened RefreshInterleaving

  const T := Token(0, 10, false, None)

  const USED := Token(0, 10, true, Some(2))

  const FIRST := Origin(1, 0, 0)

  /** A state of the run, at time 0 with tokens living 10. */
  ghost function State(d: Tokens, threads: map<Tid, Pc>, minted: map<Hash, Tid>, issued: map<Hash, Origin>, log: seq<Event>)
    : System
  {
    System(d, threads, 0, 10, minted, issued, log)
  }

  ghost function Racing(one: Pc, two: Pc, minted: map<Hash, Tid>): System {
    State(map[1 := T], map[1 := one, 2 := two], minted, map[1 := FIRST], [Created(1, 0)])
  }

  ghost function Won(two: map<Tid, Pc>): System {
    State(map[1 := USED, 2 := T], two, map[1 := 0, 2 := 1, 3 := 2], map[1 := FIRST, 2 := FIRST],
          [Created(1, 0), Swap(1, 2, 0)])
  }

  /** The run ends in `to` when it goes step by step. */
  ghost predicate Reaches(s: System, steps: seq<Step>, to: System) {
    Possible(s, steps) && Run(s, steps) == to
  }

  lemma {:induction false} Append(s: System, steps: seq<Step>, mid: System, step: Step, to: System)
    requires Reaches(s, steps, mid) && Enabled(mid, step) && After(mid, step) == to
    ensures Reaches(s, steps + [step], to)
    decreases |steps|
  {
    hide Enabled, After;
    if steps == [] {
      assert [] + [step] == [step] && [step][1..] == [];
      assert Possible(to, []) && Run(to, []) == to;
      assert Possible(s, [step]);
    } else {
      assert (steps + [step])[1..] == steps[1..] + [step];
      Append(After(s, steps[0]), steps[1..], mid, step, to);
    }
  }

  lemma Issued() returns (steps: seq<Step>)
    ensures Reaches(Start(0, 10), steps, State(map[1 := T], map[], map[1 := 0], map[1 := FIRST], [Created(1, 0)]))
  {
    var s0 := Start(0, 10);
    var s1 := State(map[], map[0 := Issuing(0)], map[], map[], []);
    var s2 := State(map[], map[0 := Creating(1, T)], map[1 := 0], map[], []);
    var s3 := State(map[1 := T], map[], map[1 := 0], map[1 := FIRST], [Created(1, 0)]);
    assert After(s0, Begin(0, Issuing(0), 0)) == s1;
    assert After(s1, Go(0, true, 1, 0)) == s2;
    assert After(s2, Go(0, true, 2, 0)) == s3;
    Append(s0, [], s0, Begin(0, Issuing(0), 0), s1);
    Append(s0, [] + [Begin(0, Issuing(0), 0)], s1, Go(0, true, 1, 0), s2);
    steps := [] + [Begin(0, Issuing(0), 0)] + [Go(0, true, 1, 0)];
    Append(s0, steps, s2, Go(0, true, 2, 0), s3);
    steps := steps + [Go(0, true, 2, 0)];
  }

  /** Both rotations read the token before either swaps it. */
  lemma BothRead() returns (steps: seq<Step>)
    ensures Reaches(Start(0, 10), steps, Racing(Checking(1, T), Checking(1, T), map[1 := 0]))
  {
    var s0, s3 := Start(0, 10), State(map[1 := T], map[], map[1 := 0], map[1 := FIRST], [Created(1, 0)]);
    var s4 := State(map[1 := T], map[1 := Rotating(1)], map[1 := 0], map[1 := FIRST], [Created(1, 0)]);
    var s5 := Racing(Rotating(1), Rotating(1), map[1 := 0]);
    var s6 := Racing(Checking(1, T), Rotating(1), map[1 := 0]);
    var s7 := Racing(Checking(1, T), Checking(1, T), map[1 := 0]);
    assert After(s3, Begin(1, Rotating(1), 0)) == s4;
    assert After(s4, Begin(2, Rotating(1), 0)) == s5;
    assert After(s5, Go(1, true, 2, 0)) == s6;
    assert After(s6, Go(2, true, 2, 0)) == s7;
    steps := Issued();
    Append(s0, steps, s3, Begin(1, Rotating(1), 0), s4);
    Append(s0, steps + [Begin(1, Rotating(1), 0)], s4, Begin(2, Rotating(1), 0), s5);
    steps := steps + [Begin(1, Rotating(1), 0)] + [Begin(2, Rotating(1), 0)];
    Append(s0, steps, s5, Go(1, true, 2, 0), s6);
    Append(s0, steps + [Go(1, true, 2, 0)], s6, Go(2, true, 2, 0), s7);
    steps := steps + [Go(1, true, 2, 0)] + [Go(2, true, 2, 0)];
  }

  lemma FirstMints()
    ensures var s7 := Racing(Checking(1, T), Checking(1, T), map[1 := 0]);
            var s8 := Racing(Swapping(1, T, 2, T), Checking(1, T), map[1 := 0, 2 := 1]);
            Enabled(s7, Go(1, true, 2, 0)) && After(s7, Go(1, true, 2, 0)) == s8
  {}

  lemma SecondMints()
    ensures var s8 := Racing(Swapping(1, T, 2, T), Checking(1, T), map[1 := 0, 2 := 1]);
            var s9 := Racing(Swapping(1, T, 2, T), Swapping(1, T, 3, T), map[1 := 0, 2 := 1, 3 := 2]);
            Enabled(s8, Go(2, true, 3, 0)) && After(s8, Go(2, true, 3, 0)) == s9
  {}

  lemma FirstSwapsNow()
    ensures var s9 := Racing(Swapping(1, T, 2, T), Swapping(1, T, 3, T), map[1 := 0, 2 := 1, 3 := 2]);
            Enabled(s9, Go(1, true, 4, 0)) && After(s9, Go(1, true, 4, 0)) == Won(map[2 := Swapping(1, T, 3, T)])
  {}

  /** The first swaps; the second is about to. */
  lemma FirstSwaps() returns (steps: seq<Step>)
    ensures Reaches(Start(0, 10), steps, Won(map[2 := Swapping(1, T, 3, T)]))
  {
    var s0, s7 := Start(0, 10), Racing(Checking(1, T), Checking(1, T), map[1 := 0]);
    var s8 := Racing(Swapping(1, T, 2, T), Checking(1, T), map[1 := 0, 2 := 1]);
    var s9 := Racing(Swapping(1, T, 2, T), Swapping(1, T, 3, T), map[1 := 0, 2 := 1, 3 := 2]);
    var s10 := Won(map[2 := Swapping(1, T, 3, T)]);
    FirstMints();
    SecondMints();
    FirstSwapsNow();
    hide Run, Possible, Reaches, After;
    steps := BothRead();
    Append(s0, steps, s7, Go(1, true, 2, 0), s8);
    Append(s0, steps + [Go(1, true, 2, 0)], s8, Go(2, true, 3, 0), s9);
    steps := steps + [Go(1, true, 2, 0)] + [Go(2, true, 3, 0)];
    Append(s0, steps, s9, Go(1, true, 4, 0), s10);
    steps := steps + [Go(1, true, 4, 0)];
  }

  /** The second rotation is told of the reuse and ends; the family keeps its live token. */
  lemma LostRaceLeavesTheFamilyLive() returns (steps: seq<Step>, lose: Step, end: Step)
    ensures Possible(Start(0, 10), steps) && lose.Go? && end.Go? && lose.tid == end.tid
    ensures var s := Run(Start(0, 10), steps);
            && lose.tid in s.threads && s.threads[lose.tid].Swapping? && Enabled(s, lose)
            && Rotated(s.d, s.threads[lose.tid].h, s.threads[lose.tid].id, s.threads[lose.tid].minted, lose.at).1 == Reuse
            && Enabled(After(s, lose), end)
            && var s' := After(After(s, lose), end);
               s'.threads == map[] && Live(s'.d, 2) && SameFamily(s'.issued, s.threads[lose.tid].h, 2)
  {
    steps := FirstSwaps();
    lose, end := Go(2, true, 4, 0), Go(2, true, 4, 0);
    var s := Won(map[2 := Swapping(1, T, 3, T)]);
    assert After(s, lose) == Won(map[2 := Walking(T, {1})]);
    assert After(Won(map[2 := Walking(T, {1})]), end) == Won(map[]);
  }
}
