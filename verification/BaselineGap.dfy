/** The condition of `Decoders.FirstDecoderExactly` can fail: a scancode dropped
    between the creation of the queue and the baseline read, behind queued
    ones, goes unnoticed. */
module BaselineGap {
  import opened Prelude
  import opened Kernel
  import opened Decoders

  function Numbered(n: nat): seq<InputEvent> {
    seq(n, (i: nat) => Scancode(0, i))
  }

  /** The shell's first poll, stopped just before the baseline read, after
      `n` scancodes have been accepted. */
  function AtBaseline(n: nat): State {
    State(ShellBaseline, {SHELL}, [], true, false, true, Numbered(n), None, None, false,
          0, 0, Past(seq(n, _ => 0), true, [], []))
  }

  lemma {:induction false} QueueFills(n: nat, m: nat)
    requires n + m <= CAPACITY
    ensures Run(AtBaseline(n), Repeat(KeyIrq(0), m)) == AtBaseline(n + m)
    decreases m
  {
    if m > 0 {
      var s := AtBaseline(n);
      assert Numbered(n) + [Scancode(0, n)] == Numbered(n + 1);
      assert seq(n, _ => 0 as byte) + [0] == seq(n + 1, _ => 0 as byte);
      assert Apply(s, KeyIrq(0)) == AtBaseline(n + 1);
      assert Repeat(KeyIrq(0), m)[1..] == Repeat(KeyIrq(0), m - 1);
      QueueFills(n + 1, m - 1);
    }
  }

  lemma BootReachesBaseline()
    ensures Run(INITIAL, [Spawn(SHELL)] + Repeat(Advance, 3)) == AtBaseline(0)
  {
    SpawnIsFirst(Repeat(Advance, 3));
    IterateIsRun(SPAWNED, 3);
    IterateConcat(SPAWNED, 2, 1);
    SpawnedReachesPopped();
    assert Iterate(POPPED, 1) == ShellAccess(POPPED);
    assert Numbered(0) == [];
  }

  lemma {:induction false} FirstStamp(n: nat)
    requires n > 0
    ensures Stamps(Numbered(n)) != []
  {
    assert Numbered(n)[0] == Scancode(0, 0);
  }

  /** A hundred and one scancodes before the read, and the first decoder is
      fed across a gap. */
  lemma DropBeforeBaselineLeavesGap() returns (steps: seq<Step>, more: seq<Step>)
    ensures var s := Run(INITIAL, steps);
            && s.pc.ShellBaseline? && s.dropped == 1
            && !GapFree(Stamps(First(Run(Next(s), more).past)))
  {
    var boot, fill := [Spawn(SHELL)] + Repeat(Advance, 3), Repeat(KeyIrq(0), CAPACITY);
    BootReachesBaseline();
    QueueFills(0, CAPACITY);
    RunConcat(INITIAL, boot, fill);
    var full := AtBaseline(CAPACITY);
    RunConcat(INITIAL, boot + fill, [KeyIrq(0)]);
    var s := Apply(full, KeyIrq(0));
    assert Run(full, [KeyIrq(0)]) == s by {
      assert [KeyIrq(0)][1..] == [];
    }
    steps := boot + fill + [KeyIrq(0)];
    FirstStamp(CAPACITY);
    assert s.pc.ShellBaseline? && s.dropped == 1 && s.events == Numbered(CAPACITY);
    FirstDecoderExactly(steps);
    more :| !GapFree(Stamps(First(Run(Next(s), more).past)));
  }
}
