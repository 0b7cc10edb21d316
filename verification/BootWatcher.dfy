/** The loop that waits for a boot request. What each poll finds is an input; polls go on for ever
    unless one of them stops the watcher. */
module BootWatcher {
  import opened Keys
  import opened FileTree
  import opened PropertySync
  import opened PropertyRuns
  import opened BootConfig

  /** One turn of the loop. `clock` is the time when the deadline is checked. */
  datatype Poll = Poll(shutdown: bool, sentinel: bool, read: ReadResult<Config>, clock: int, shutdownAsleep: bool)

  datatype Exit = Shutdown | AlreadyProvisioned | Ran(cfg: Config)

  const NoRequest: Config := Config("", "", "", "")

  /** The watcher returns in this turn. A failed read goes straight to sleep: the deadline is not
      looked at. */
  predicate Stops(p: Poll, deadline: int) {
    || p.shutdown || p.sentinel || p.shutdownAsleep
    || (p.read.Got? && (!IsEmpty(p.read.value) || p.clock > deadline))
  }

  predicate SeenNothing(polls: nat -> Poll, n: nat) {
    forall i :: 0 <= i <= n && polls(i).read.Got? ==> IsEmpty(polls(i).read.value)
  }

  /** watchAndRunBoot, for every environment in which some poll stops it (poll `horizon`, say). It
      returns at the first such poll, having run the runner at most once: with the request just read,
      or with the empty one, and then only once the deadline is past and no read ever found a
      request. */
  method Watch(polls: nat -> Poll, deadline: int, ghost horizon: nat) returns (exit: Exit, n: nat)
    requires Stops(polls(horizon), deadline)
    ensures n <= horizon && Stops(polls(n), deadline)
    ensures forall i :: 0 <= i < n ==> !Stops(polls(i), deadline)
    ensures exit.AlreadyProvisioned? ==> polls(n).sentinel && !polls(n).shutdown
    ensures exit.Ran? ==> !polls(n).shutdown && !polls(n).sentinel && polls(n).read.Got?
    ensures exit.Ran? && !IsEmpty(exit.cfg) ==> exit.cfg == polls(n).read.value
    ensures exit.Ran? && IsEmpty(exit.cfg) ==>
              exit.cfg == NoRequest && polls(n).clock > deadline && SeenNothing(polls, n)
    ensures exit.Shutdown? <==> polls(n).shutdown || (!polls(n).sentinel && !exit.Ran?)
  {
    n := 0;
    while true
      invariant n <= horizon
      invariant forall i :: 0 <= i < n ==> !Stops(polls(i), deadline)
      decreases horizon - n
    {
      var p := polls(n);
      if p.shutdown { return Shutdown, n; }
      if p.sentinel { return AlreadyProvisioned, n; }
      if p.read.Got? {
        if !IsEmpty(p.read.value) { return Ran(p.read.value), n; }
        if p.clock > deadline {
          assert IsEmpty(NoRequest);
          return Ran(NoRequest), n;
        }
      }
      if p.shutdownAsleep { return Shutdown, n; }
      n := n + 1;
    }
  }

  // ----- when some poll stops it -----

  ghost predicate ClockAdvances(polls: nat -> Poll) {
    forall i: nat :: polls(i).clock < polls(i + 1).clock
  }

  lemma {:induction false} ClockAtLeast(polls: nat -> Poll, n: nat)
    requires ClockAdvances(polls)
    ensures polls(n).clock >= polls(0).clock + n
  {
    if n > 0 { ClockAtLeast(polls, n - 1); }
  }

  ghost predicate ReadsAgain(polls: nat -> Poll, n: nat) {
    exists m: nat :: m >= n && polls(m).read.Got?
  }

  /** Reads that keep succeeding, however rarely, are enough. */
  lemma StopsWhenReadsRecur(polls: nat -> Poll, deadline: int) returns (h: nat)
    requires ClockAdvances(polls)
    requires forall n: nat :: ReadsAgain(polls, n)
    ensures Stops(polls(h), deadline)
  {
    var n: nat := if deadline < polls(0).clock then 0 else deadline - polls(0).clock + 1;
    assert ReadsAgain(polls, n);
    h :| h >= n && polls(h).read.Got?;
    ClockAtLeast(polls, h);
  }

  /** When reads stop failing at poll f, the watcher is done by the later of f and the first poll
      past the deadline. */
  lemma StopsSoonAfterDeadline(polls: nat -> Poll, deadline: int, f: nat) returns (h: nat)
    requires ClockAdvances(polls) && forall i: nat :: i >= f ==> polls(i).read.Got?
    ensures Stops(polls(h), deadline)
    ensures h == f || h <= deadline - polls(0).clock + 1
  {
    var n := deadline - polls(0).clock + 1;
    h := if n < f then f else n;
    ClockAtLeast(polls, h);
  }

  /** d is the first poll past the deadline. */
  ghost predicate FirstPast(polls: nat -> Poll, deadline: int, d: nat) {
    polls(d).clock > deadline && forall i: nat :: i < d ==> polls(i).clock <= deadline
  }

  lemma {:induction false} SomeFirstPast(polls: nat -> Poll, deadline: int, n: nat) returns (d: nat)
    requires polls(n).clock > deadline
    ensures FirstPast(polls, deadline, d)
  {
    if i: nat :| i < n && polls(i).clock > deadline { d := SomeFirstPast(polls, deadline, i); } else { d := n; }
  }

  lemma {:induction false} PastStaysPast(polls: nat -> Poll, d: nat, i: nat)
    requires ClockAdvances(polls) && d <= i
    ensures polls(i).clock >= polls(d).clock
  {
    if d < i { PastStaysPast(polls, d, i - 1); }
  }

  /** Exactly the environments that strand it: with nothing else to end the loop, the watcher outlives
      its deadline for ever just when every read from the first poll past the deadline on fails. */
  lemma StrandedIff(polls: nat -> Poll, deadline: int)
    requires ClockAdvances(polls)
    requires forall i: nat :: !polls(i).shutdown && !polls(i).sentinel && !polls(i).shutdownAsleep
    requires forall i: nat :: polls(i).read.Got? ==> IsEmpty(polls(i).read.value)
    ensures (forall i: nat :: !Stops(polls(i), deadline)) <==>
            exists d: nat :: FirstPast(polls, deadline, d) && forall i: nat :: i >= d ==> polls(i).read.Failed?
  {
    var n: nat := if deadline < polls(0).clock then 0 else deadline - polls(0).clock + 1;
    ClockAtLeast(polls, n);
    var d := SomeFirstPast(polls, deadline, n);
    if forall i: nat :: !Stops(polls(i), deadline) {
      forall i: nat | i >= d ensures polls(i).read.Failed? { PastStaysPast(polls, d, i); }
    }
  }

  lemma BootDirAsKey()
    ensures CheckKey(BootDir).Accepted? && Segments(BootDir) == [BootDir]
  {
    NoTwoDots(BootDir);
    OneSegment(BootDir);
  }

  lemma BootDirAsFile(v: string)
    ensures var r := Applied(Fresh, [Entry([BootDir], v)]); r.ok && IsFile(r.tree, [BootDir])
  {
    var es := [Entry([BootDir], v)];
    assert es[0].loc == [BootDir] && AllPlain(es) && PrefixFree(es);
    HistoryConverges([], es);
  }

  /** It happens: a set whose one key names the boot directory is accepted and applied, every read of the
      tree then fails, and no poll, however late, stops the watcher. */
  lemma BootDirAsFileStrands(v: string, deadline: int, clock: int)
    ensures CheckKey(BootDir).Accepted? && Segments(BootDir) == [BootDir]
    ensures var r := Applied(Fresh, [Entry([BootDir], v)]);
            && r.ok && ReadAt([r.tree, r.tree, r.tree, r.tree]).Failed?
            && !Stops(Poll(false, false, ReadAt([r.tree, r.tree, r.tree, r.tree]), clock, false), deadline)
  {
    BootDirAsKey();
    BootDirAsFile(v);
  }
}
