/** Folding a kernel drop counter that restarts at every table rebuild into a monotone total. */
module DropCounter {

  const TWO_64: nat := 0x1_0000_0000_0000_0000

  type uint64 = x: int | 0 <= x < TWO_64

  function Sub(a: uint64, b: uint64): uint64 {
    (a - b) % TWO_64
  }

  /** One accumulator: the last raw value seen and the published total. */
  datatype Acc = Acc(last: uint64, total: nat)

  function Observe(a: Acc, raw: uint64): Acc {
    Acc(raw, a.total + Sub(raw, if raw < a.last then 0 else a.last))
  }

  function Fold(samples: seq<uint64>): Acc {
    if samples == [] then Acc(0, 0) else Observe(Fold(samples[..|samples| - 1]), samples[|samples| - 1])
  }

  class Recorder {
    var packets: Acc
    var bytes: Acc

    constructor ()
      ensures packets == Fold([]) && bytes == Fold([])
    {
      packets, bytes := Acc(0, 0), Acc(0, 0);
    }

    /** RecordFirewallDrops: the two counters move independently. */
    method RecordFirewallDrops(p: uint64, b: uint64)
      modifies this
      ensures packets == Observe(old(packets), p) && bytes == Observe(old(bytes), b)
    {
      if p < packets.last { packets := packets.(last := 0); }
      var delta := Sub(p, packets.last);
      if delta > 0 { packets := packets.(total := packets.total + delta); }
      packets := packets.(last := p);

      if b < bytes.last { bytes := bytes.(last := 0); }
      delta := Sub(b, bytes.last);
      if delta > 0 { bytes := bytes.(total := bytes.total + delta); }
      bytes := bytes.(last := b);
    }
  }

  // ----- the total as a function of the samples alone -----

  /** The sum of the last elements of the maximal non-decreasing runs. */
  function RunEnds(s: seq<uint64>): nat {
    if s == [] then 0
    else if |s| == 1 then s[0]
    else (if s[1] < s[0] then s[0] else 0) + RunEnds(s[1..])
  }

  lemma {:induction false} RunEndsSnoc(s: seq<uint64>, x: uint64)
    requires s != []
    ensures RunEnds(s + [x]) == RunEnds(s) + x - if x < s[|s| - 1] then 0 else s[|s| - 1]
  {
    if |s| > 1 {
      RunEndsSnoc(s[1..], x);
      assert (s + [x])[1..] == s[1..] + [x];
    }
  }

  lemma {:induction false} TotalIsRunEnds(s: seq<uint64>)
    ensures Fold(s).total == RunEnds(s)
    ensures s != [] ==> Fold(s).last == s[|s| - 1]
  {
    if s != [] {
      var n := |s| - 1;
      var init, x := s[..n], s[n];
      TotalIsRunEnds(init);
      ObserveAdds(Fold(init), x);
      if n > 0 {
        RunEndsSnoc(init, x);
        assert init + [x] == s;
      }
    }
  }

  /** The 64-bit difference never wraps. */
  lemma ObserveAdds(a: Acc, x: uint64)
    ensures Observe(a, x).total == a.total + x - if x < a.last then 0 else a.last
  {
  }

  // ----- against the kernel -----

  datatype Step = Drop(n: nat) | Rebuild | Sample

  /** `sampled` is the counter at the last sample; `orphans` are the drops since then that were
      counted by a table no longer there. */
  datatype Kernel = Kernel(raw: nat, dropped: nat, sampled: nat, orphans: nat, rebuilt: bool)

  function Advance(k: Kernel, s: Step): Kernel {
    match s
    case Drop(n) => k.(raw := k.raw + n, dropped := k.dropped + n)
    case Rebuild =>
      var since: int := if k.rebuilt then k.raw else k.raw - k.sampled;
      k.(raw := 0, orphans := if since < 0 then k.orphans else k.orphans + since, rebuilt := true)
    case Sample => k.(sampled := k.raw, orphans := 0, rebuilt := false)
  }

  function After(steps: seq<Step>): Kernel {
    if steps == [] then Kernel(0, 0, 0, 0, false)
    else Advance(After(steps[..|steps| - 1]), steps[|steps| - 1])
  }

  /** The kernel counter fits its 64 bits throughout. */
  predicate Fits(steps: seq<Step>) {
    forall i :: 0 <= i <= |steps| ==> After(steps[..i]).raw < TWO_64
  }

  function Samples(steps: seq<Step>): seq<uint64>
    requires Fits(steps)
  {
    if steps == [] then []
    else
      var n := |steps| - 1;
      assert forall i :: 0 <= i <= n ==> steps[..n][..i] == steps[..i];
      assert steps[..|steps|] == steps;
      Samples(steps[..n]) + if steps[n].Sample? then [After(steps[..n]).raw] else []
  }

  function Published(steps: seq<Step>): nat
    requires Fits(steps)
  {
    Fold(Samples(steps)).total
  }

  /** What a sample taken now would fail to publish. */
  function Loss(k: Kernel): nat {
    if !k.rebuilt then 0 else k.orphans + if k.raw < k.sampled then 0 else k.sampled
  }

  function Lost(steps: seq<Step>): nat {
    if steps == [] then 0
    else
      var n := |steps| - 1;
      Lost(steps[..n]) + if steps[n].Sample? then Loss(After(steps[..n])) else 0
  }

  /** Drops since the last sample. */
  function Pending(k: Kernel): int {
    if k.rebuilt then k.orphans + k.raw else k.raw - k.sampled
  }

  lemma PrefixFits(steps: seq<Step>)
    requires Fits(steps) && steps != []
    ensures Fits(steps[..|steps| - 1])
  {
    var n := |steps| - 1;
    forall i | 0 <= i <= n ensures After(steps[..n][..i]).raw < TWO_64 {
      assert steps[..n][..i] == steps[..i];
    }
  }

  lemma {:induction false} SamplesSnoc(steps: seq<Step>)
    requires Fits(steps) && steps != []
    ensures var n := |steps| - 1;
            && Fits(steps[..n])
            && (!steps[n].Sample? ==> Samples(steps) == Samples(steps[..n]))
            && (steps[n].Sample? ==>
                  && After(steps[..n]).raw < TWO_64
                  && Fold(Samples(steps)) == Observe(Fold(Samples(steps[..n])), After(steps[..n]).raw))
  {
    PrefixFits(steps);
  }

  ghost predicate Balanced(k: Kernel, a: Acc, lost: nat) {
    && a.total + lost + Pending(k) == k.dropped
    && a.last == k.sampled
    && (!k.rebuilt ==> k.orphans == 0 && k.raw >= k.sampled)
  }

  lemma BalancedStep(k: Kernel, a: Acc, lost: nat, s: Step)
    requires Balanced(k, a, lost)
    ensures !s.Sample? ==> Balanced(Advance(k, s), a, lost)
    ensures s.Sample? && k.raw < TWO_64 ==> Balanced(Advance(k, s), Observe(a, k.raw), lost + Loss(k))
  {
  }

  /** Every drop is accounted for: published, lost at some sample, or not sampled yet. */
  lemma {:induction false} Conservation(steps: seq<Step>)
    requires Fits(steps)
    ensures Balanced(After(steps), Fold(Samples(steps)), Lost(steps))
  {
    if steps != [] {
      var n := |steps| - 1;
      SamplesSnoc(steps);
      Conservation(steps[..n]);
      BalancedStep(After(steps[..n]), Fold(Samples(steps[..n])), Lost(steps[..n]), steps[n]);
    }
  }

  /** The published total never overtakes the truth. */
  lemma {:induction false} NeverOvercounts(steps: seq<Step>)
    requires Fits(steps)
    ensures Published(steps) <= After(steps).dropped
  {
    Conservation(steps);
  }

  lemma PublishedMonotone(steps: seq<Step>)
    requires Fits(steps) && steps != []
    ensures Fits(steps[..|steps| - 1]) && Published(steps[..|steps| - 1]) <= Published(steps)
  {
    SamplesSnoc(steps);
  }

  /** A sample sees everything: no rebuild since the last one, or nothing was dropped between that
      sample and the rebuilds and the counter now reads lower than it did, or had read zero. */
  predicate Faithful(k: Kernel) {
    !k.rebuilt || (k.orphans == 0 && (k.raw < k.sampled || k.sampled == 0))
  }

  lemma {:induction false} LostNothingIff(steps: seq<Step>)
    ensures Lost(steps) == 0 <==> forall i :: 0 <= i < |steps| && steps[i].Sample? ==> Faithful(After(steps[..i]))
  {
    if steps != [] {
      var n := |steps| - 1;
      LostNothingIff(steps[..n]);
      forall i | 0 <= i < n ensures steps[..n][..i] == steps[..i] {
      }
    }
  }

  /** At a sample the published total is the true one exactly when every sample so far was faithful. */
  lemma {:induction false} ExactIff(steps: seq<Step>)
    requires Fits(steps) && steps != [] && steps[|steps| - 1].Sample?
    ensures Published(steps) == After(steps).dropped <==>
            forall i :: 0 <= i < |steps| && steps[i].Sample? ==> Faithful(After(steps[..i]))
  {
    Conservation(steps);
    LostNothingIff(steps);
  }

  /** And it is not always: drops wiped by a rebuild before they were sampled are never published. */
  lemma {:induction false} WipedDropsAreLost()
    ensures var steps := [Drop(2), Rebuild, Drop(1), Sample];
            Fits(steps) && Published(steps) == 1 && After(steps).dropped == 3
  {
    var s0: seq<Step> := [];
    var s1, s2, s3 := s0 + [Drop(2)], s0 + [Drop(2)] + [Rebuild], s0 + [Drop(2)] + [Rebuild] + [Drop(1)];
    assert Fits(s0);
    AfterSnoc(s0, Drop(2));
    AfterSnoc(s1, Rebuild);
    AfterSnoc(s2, Drop(1));
    AfterSnoc(s3, Sample);
    assert s3 + [Sample] == [Drop(2), Rebuild, Drop(1), Sample];
  }

  lemma {:induction false} AfterSnoc(steps: seq<Step>, s: Step)
    requires Fits(steps) && Advance(After(steps), s).raw < TWO_64
    ensures Fits(steps + [s]) && After(steps + [s]) == Advance(After(steps), s)
    ensures Fold(Samples(steps + [s])) ==
            if s.Sample? then Observe(Fold(Samples(steps)), After(steps).raw) else Fold(Samples(steps))
  {
    var all := steps + [s];
    assert all[..|steps|] == steps && all[..|all|] == all && steps[..|steps|] == steps;
    forall i | 0 <= i <= |all| ensures After(all[..i]).raw < TWO_64 {
      if i <= |steps| { assert all[..i] == steps[..i]; }
    }
    SamplesSnoc(all);
  }
}
