/** One accepted session channel: the request loop of the embedded SSH server. Spawning the shell is an
    outside call whose outcome is an input. */
module SshSession {
  import opened Options
  import opened SshWire

  datatype Request = Request(kind: string, payload: bytes, wantReply: bool)

  /** A request with its payload parsed. */
  datatype Msg = PtyReq(pty: Parsed<Pty>) | Env(pair: Parsed<(bytes, bytes)>) | Shell
               | Exec(line: Parsed<bytes>) | WindowChange(size: Parsed<Size>) | Other(wantReply: bool)

  function Decode(r: Request): Msg {
    match r.kind
    case "pty-req" => PtyReq(ParsePtyReq(r.payload))
    case "env" => Env(ParseEnvReq(r.payload))
    case "shell" => Shell
    case "exec" => Exec(ParseExecReq(r.payload))
    case "window-change" => WindowChange(ParseWinChReq(r.payload))
    case _ => Other(r.wantReply)
  }

  function Decoded(reqs: seq<Request>): (ms: seq<Msg>)
    ensures |ms| == |reqs| && forall i :: 0 <= i < |reqs| ==> ms[i] == Decode(reqs[i])
  {
    seq(|reqs|, i requires 0 <= i < |reqs| => Decode(reqs[i]))
  }

  /** What the loop does, tagged with the request it does it for. Resize carries 16-bit sizes. */
  datatype Action = Reply(at: nat, ok: bool)
                  | StartShell(at: nat, pty: Option<Pty>, env: seq<bytes>, line: bytes, ok: bool)
                  | Resize(at: nat, rows: nat, cols: nat, x: nat, y: nat)

  /** `over` says the loop has returned, or died in a parser panic. */
  datatype Session = Session(pty: Option<Pty>, env: seq<bytes>, started: bool, master: bool, over: bool,
                             done: seq<Action>)

  const Fresh: Session := Session(None, [], false, false, false, [])

  const EQUALS: bytes := [61]

  function Pair(kv: (bytes, bytes)): bytes { kv.0 + EQUALS + kv.1 }

  function Resized(n: nat, z: Size): Action {
    Resize(n, z.rows % 0x1_0000, z.cols % 0x1_0000, z.xPx % 0x1_0000, z.yPx % 0x1_0000)
  }

  /** What request m, number n, makes the loop do. */
  function Actions(s: Session, m: Msg, n: nat, spawns: bool): seq<Action> {
    match m
    case PtyReq(p) => if p.Panics? then [] else [Reply(n, p.Ok?)]
    case Env(p) => if p.Panics? then [] else [Reply(n, true)]
    case Shell =>
      if s.started then [Reply(n, false)] else [StartShell(n, s.pty, s.env, [], spawns), Reply(n, spawns)]
    case Exec(p) =>
      if s.started then [Reply(n, false)]
      else if p.Panics? then []
      else if p.Malformed? then [Reply(n, false)]
      else [StartShell(n, s.pty, s.env, p.value, spawns), Reply(n, spawns)]
    case WindowChange(z) => if s.master && z.Ok? then [Resized(n, z.value)] else []
    case Other(wantReply) => if wantReply then [Reply(n, false)] else []
  }

  /** And what becomes of its variables. A start request counts even when its command is unusable. */
  function Update(s: Session, m: Msg, spawns: bool): Session {
    match m
    case PtyReq(p) => if p.Ok? then s.(pty := Some(p.value)) else s.(over := p.Panics?)
    case Env(p) => if p.Ok? then s.(env := s.env + [Pair(p.value)]) else s.(over := p.Panics?)
    case Shell => if s.started then s else s.(started := true, master := spawns, over := !spawns)
    case Exec(p) =>
      if s.started then s
      else if p.Ok? then s.(started := true, master := spawns, over := !spawns)
      else s.(started := true, over := p.Panics?)
    case _ => s
  }

  function Handle(s: Session, m: Msg, n: nat, spawns: bool): Session {
    Update(s, m, spawns).(done := s.done + Actions(s, m, n, spawns))
  }

  function Serve(ms: seq<Msg>, spawns: bool): Session {
    if ms == [] then Fresh
    else
      var n := |ms| - 1;
      var s := Serve(ms[..n], spawns);
      if s.over then s else Handle(s, ms[n], n, spawns)
  }

  /** handleSession. */
  method HandleSession(reqs: seq<Request>, spawns: bool) returns (done: seq<Action>)
    ensures done == Serve(Decoded(reqs), spawns).done
  {
    done := HandleMessages(Decoded(reqs), spawns);
  }

  method HandleMessages(ms: seq<Msg>, spawns: bool) returns (done: seq<Action>)
    ensures done == Serve(ms, spawns).done
  {
    var s := Fresh;
    var n := 0;
    while n < |ms|
      invariant 0 <= n <= |ms| && !s.over
      invariant Serve(ms[..n], spawns) == s
    {
      Unfold(ms, n, spawns);
      s := HandleMessage(s, ms[n], n, spawns);
      n := n + 1;
      if s.over {
        StaysOver(ms, n, spawns);
        return s.done;
      }
    }
    assert ms[..n] == ms;
    done := s.done;
  }

  /** The loop body: request m, number n. */
  method HandleMessage(s: Session, m: Msg, n: nat, spawns: bool) returns (r: Session)
    requires !s.over
    ensures r == Handle(s, m, n, spawns)
  {
    r := s;
    match m {
      case PtyReq(p) =>
        if p.Panics? { return r.(over := true); }
        if p.Ok? { r := r.(pty := Some(p.value)); }
        r := r.(done := r.done + [Reply(n, p.Ok?)]);
      case Env(p) =>
        if p.Panics? { return r.(over := true); }
        if p.Ok? { r := r.(env := r.env + [Pair(p.value)]); }
        r := r.(done := r.done + [Reply(n, true)]);
      case Shell =>
        r := StartOnce(r, [], n, spawns);
      case Exec(p) =>
        if r.started || p.Ok? {
          r := StartOnce(r, if p.Ok? then p.value else [], n, spawns);
        } else {
          r := r.(started := true);
          if p.Panics? { return r.(over := true); }
          r := r.(done := r.done + [Reply(n, false)]);
        }
      case WindowChange(z) =>
        if r.master && z.Ok? { r := r.(done := r.done + [Resized(n, z.value)]); }
      case Other(wantReply) =>
        if wantReply { r := r.(done := r.done + [Reply(n, false)]); }
    }
  }

  /** A start request with a usable command: refused if there was one before. */
  method StartOnce(s: Session, line: bytes, n: nat, spawns: bool) returns (r: Session)
    requires !s.over
    ensures s.started ==> r == s.(done := s.done + [Reply(n, false)])
    ensures !s.started ==> r == s.(started := true, master := spawns, over := !spawns,
                                   done := s.done + [StartShell(n, s.pty, s.env, line, spawns), Reply(n, spawns)])
  {
    if s.started {
      return s.(done := s.done + [Reply(n, false)]);
    }
    r := s.(started := true);
    r := r.(done := r.done + [StartShell(n, r.pty, r.env, line, spawns)]);
    r := r.(master := spawns, over := !spawns, done := r.done + [Reply(n, spawns)]);
    assert s.done + [StartShell(n, s.pty, s.env, line, spawns)] + [Reply(n, spawns)]
        == s.done + [StartShell(n, s.pty, s.env, line, spawns), Reply(n, spawns)];
  }

  lemma {:induction false} Unfold(ms: seq<Msg>, n: nat, spawns: bool)
    requires n < |ms| && !Serve(ms[..n], spawns).over
    ensures Serve(ms[..n + 1], spawns) == Handle(Serve(ms[..n], spawns), ms[n], n, spawns)
  {
    assert ms[..n + 1][..n] == ms[..n];
  }

  lemma {:induction false} StaysOver(ms: seq<Msg>, n: nat, spawns: bool)
    requires n <= |ms|
    ensures Serve(ms[..n], spawns).over ==> Serve(ms, spawns) == Serve(ms[..n], spawns)
  {
    if n == |ms| {
      assert ms[..n] == ms;
    } else {
      assert ms[..|ms| - 1][..n] == ms[..n];
      StaysOver(ms[..|ms| - 1], n, spawns);
    }
  }

  // ----- what the requests say, without running the loop -----

  predicate IsStart(m: Msg) { m.Shell? || m.Exec? }

  /** The last well-formed pty-req. */
  function LastPty(ms: seq<Msg>): Option<Pty> {
    if ms == [] then None
    else
      var n := |ms| - 1;
      if ms[n].PtyReq? && ms[n].pty.Ok? then Some(ms[n].pty.value) else LastPty(ms[..n])
  }

  /** The well-formed env pairs, in order. */
  function EnvOf(ms: seq<Msg>): seq<bytes> {
    if ms == [] then []
    else
      var n := |ms| - 1;
      EnvOf(ms[..n]) + if ms[n].Env? && ms[n].pair.Ok? then [Pair(ms[n].pair.value)] else []
  }

  predicate HasStart(ms: seq<Msg>) {
    exists i :: 0 <= i < |ms| && IsStart(ms[i])
  }

  /** The command a start request asks for; None when its payload is unusable. */
  function Line(m: Msg): Option<bytes>
    requires IsStart(m)
  {
    if m.Shell? then Some([]) else if m.line.Ok? then Some(m.line.value) else None
  }

  lemma HasStartSnoc(ms: seq<Msg>)
    requires ms != []
    ensures HasStart(ms) <==> HasStart(ms[..|ms| - 1]) || IsStart(ms[|ms| - 1])
  {
  }

  lemma HandleVariables(s: Session, m: Msg, n: nat, spawns: bool)
    ensures var r := Handle(s, m, n, spawns);
            && r.pty == (if m.PtyReq? && m.pty.Ok? then Some(m.pty.value) else s.pty)
            && r.env == (s.env + if m.Env? && m.pair.Ok? then [Pair(m.pair.value)] else [])
            && (r.started <==> s.started || IsStart(m))
  {
  }

  /** The loop's variables are these summaries of the requests handled so far. */
  lemma {:induction false} Variables(ms: seq<Msg>, spawns: bool)
    ensures var s := Serve(ms, spawns);
            !s.over ==> s.pty == LastPty(ms) && s.env == EnvOf(ms) && (s.started <==> HasStart(ms))
  {
    if ms != [] {
      var n := |ms| - 1;
      Variables(ms[..n], spawns);
      HasStartSnoc(ms);
      HandleVariables(Serve(ms[..n], spawns), ms[n], n, spawns);
    }
  }

  /** A pty-req is granted if well formed, an env always, an unknown request never; a window-change has
      no answer. */
  predicate Answers(m: Msg, ok: bool) {
    match m
    case PtyReq(p) => ok == p.Ok?
    case Env(_) => ok
    case WindowChange(_) => false
    case Other(wantReply) => wantReply && !ok
    case _ => true
  }

  /** What may be said of one action of a session. A shell is spawned only for the first start request,
      with the last well-formed pty-req and all well-formed env pairs before it; a start request is
      granted only if it spawned; a resize is for a window-change after a spawn that worked. */
  ghost predicate Justified(ms: seq<Msg>, done: seq<Action>, a: Action) {
    a.at < |ms| &&
    match a
    case StartShell(i, pty, env, line, ok) =>
      && IsStart(ms[i]) && !HasStart(ms[..i]) && Line(ms[i]) == Some(line)
      && pty == LastPty(ms[..i]) && env == EnvOf(ms[..i])
    case Reply(i, ok) =>
      && Answers(ms[i], ok)
      && (IsStart(ms[i]) && ok ==> exists b :: b in done && b.StartShell? && b.at == i && b.ok)
    case Resize(i, _, _, _, _) =>
      && ms[i].WindowChange? && ms[i].size.Ok? && a == Resized(i, ms[i].size.value)
      && exists b :: b in done && b.StartShell? && b.at < i && b.ok
  }

  ghost predicate AllJustified(ms: seq<Msg>, s: Session) {
    && (forall a :: a in s.done ==> Justified(ms, s.done, a))
    && (s.master ==> exists b :: b in s.done && b.StartShell? && b.at < |ms| && b.ok)
  }

  lemma JustifiedLater(ms: seq<Msg>, m: Msg, done: seq<Action>, more: seq<Action>, a: Action)
    requires Justified(ms, done, a)
    ensures Justified(ms + [m], done + more, a)
  {
    assert (ms + [m])[..a.at] == ms[..a.at];
  }

  lemma {:induction false} HandleJustified(ms: seq<Msg>, m: Msg, spawns: bool)
    requires var s := Serve(ms, spawns); !s.over && AllJustified(ms, s)
    ensures AllJustified(ms + [m], Handle(Serve(ms, spawns), m, |ms|, spawns))
  {
    var s, n := Serve(ms, spawns), |ms|;
    var more := Actions(s, m, n, spawns);
    forall a | a in s.done ensures Justified(ms + [m], s.done + more, a) { JustifiedLater(ms, m, s.done, more, a); }
    forall a | a in more ensures Justified(ms + [m], s.done + more, a) { NewlyJustified(ms, m, spawns, a); }
  }

  /** The actions of one step. */
  lemma NewAction(s: Session, m: Msg, n: nat, spawns: bool, a: Action)
    requires a in Actions(s, m, n, spawns)
    ensures a.at == n
    ensures a.StartShell? ==> !s.started && IsStart(m) && Line(m) == Some(a.line) && a.pty == s.pty && a.env == s.env
    ensures a.Reply? ==> Answers(m, a.ok)
    ensures a.Reply? && a.ok && IsStart(m) ==>
              exists b :: b in Actions(s, m, n, spawns) && b.StartShell? && b.at == n && b.ok
    ensures a.Resize? ==> s.master && m.WindowChange? && m.size.Ok? && a == Resized(n, m.size.value)
  {
  }

  lemma {:induction false} NewlyJustified(ms: seq<Msg>, m: Msg, spawns: bool, a: Action)
    requires var s := Serve(ms, spawns); !s.over && AllJustified(ms, s)
    requires a in Actions(Serve(ms, spawns), m, |ms|, spawns)
    ensures Justified(ms + [m], Serve(ms, spawns).done + Actions(Serve(ms, spawns), m, |ms|, spawns), a)
  {
    Variables(ms, spawns);
    NewAction(Serve(ms, spawns), m, |ms|, spawns, a);
  }

  lemma StillJustified(ms: seq<Msg>, m: Msg, s: Session)
    requires AllJustified(ms, s)
    ensures AllJustified(ms + [m], s)
  {
    assert s.done + [] == s.done;
    forall a | a in s.done ensures Justified(ms + [m], s.done, a) { JustifiedLater(ms, m, s.done, [], a); }
  }

  /** Every action of every session is justified. */
  lemma {:induction false} EveryActionJustified(ms: seq<Msg>, spawns: bool)
    ensures AllJustified(ms, Serve(ms, spawns))
  {
    if ms != [] {
      var n := |ms| - 1;
      var init := ms[..n];
      EveryActionJustified(init, spawns);
      if Serve(init, spawns).over {
        StillJustified(init, ms[n], Serve(init, spawns));
      } else {
        HandleJustified(init, ms[n], spawns);
      }
      assert ms == init + [ms[n]];
    }
  }

  function Shells(done: seq<Action>): nat {
    if done == [] then 0 else Shells(done[..|done| - 1]) + if done[|done| - 1].StartShell? then 1 else 0
  }

  lemma {:induction false} ShellsAppend(a: seq<Action>, b: seq<Action>)
    ensures Shells(a + b) == Shells(a) + Shells(b)
  {
    if b == [] {
      assert a + b == a;
    } else {
      ShellsAppend(a, b[..|b| - 1]);
      assert (a + b)[..|a + b| - 1] == a + b[..|b| - 1];
    }
  }

  lemma {:induction false} ShellsOfTwo(more: seq<Action>)
    requires 1 <= |more| <= 2
    ensures Shells(more) == (if more[0].StartShell? then 1 else 0) + if |more| == 2 && more[1].StartShell? then 1 else 0
  {
    var one := more[..1];
    assert one[..|one| - 1] == [];
    assert Shells(one) == if more[0].StartShell? then 1 else 0;
    if |more| == 1 { assert more == one; } else { assert more[..|more| - 1] == one; }
  }

  lemma StepShells(s: Session, m: Msg, n: nat, spawns: bool)
    ensures Shells(Actions(s, m, n, spawns)) <= if s.started || !IsStart(m) then 0 else 1
  {
    var more := Actions(s, m, n, spawns);
    if more != [] { ShellsOfTwo(more); }
  }

  /** At most one shell per channel. */
  lemma {:induction false} AtMostOneShell(ms: seq<Msg>, spawns: bool)
    ensures var s := Serve(ms, spawns); Shells(s.done) <= if s.started then 1 else 0
  {
    if ms != [] {
      var n := |ms| - 1;
      var s := Serve(ms[..n], spawns);
      AtMostOneShell(ms[..n], spawns);
      if !s.over {
        StepShells(s, ms[n], n, spawns);
        HandleVariables(s, ms[n], n, spawns);
        ShellsAppend(s.done, Actions(s, ms[n], n, spawns));
      }
    }
  }

  /** The first start request of a channel that gets that far: it spawns exactly when it names a usable
      command, with everything collected before it. */
  lemma {:induction false} FirstStart(ms: seq<Msg>, i: nat, spawns: bool)
    requires i < |ms| && IsStart(ms[i]) && !HasStart(ms[..i]) && !Serve(ms[..i], spawns).over
    ensures var before, after := Serve(ms[..i], spawns).done, Serve(ms[..i + 1], spawns).done;
            match Line(ms[i])
            case Some(line) =>
              after == before + [StartShell(i, LastPty(ms[..i]), EnvOf(ms[..i]), line, spawns), Reply(i, spawns)]
            case None => Shells(after) == 0
  {
    Unfold(ms, i, spawns);
    Variables(ms[..i], spawns);
    if Line(ms[i]).None? {
      var s := Serve(ms[..i], spawns);
      AtMostOneShell(ms[..i], spawns);
      ShellsAppend(s.done, Actions(s, ms[i], i, spawns));
      if Actions(s, ms[i], i, spawns) != [] { ShellsOfTwo([Reply(i, false)]); }
    }
  }

  /** Any later one is refused, even when the first spawned nothing. */
  lemma {:induction false} LaterStart(ms: seq<Msg>, j: nat, spawns: bool)
    requires j < |ms| && IsStart(ms[j]) && HasStart(ms[..j]) && !Serve(ms[..j], spawns).over
    ensures var s := Serve(ms[..j], spawns);
            Serve(ms[..j + 1], spawns) == s.(done := s.done + [Reply(j, false)])
  {
    Unfold(ms, j, spawns);
    Variables(ms[..j], spawns);
  }

  // ----- every request is answered once -----

  function Replies(done: seq<Action>, i: nat): nat {
    if done == [] then 0
    else
      var n := |done| - 1;
      Replies(done[..n], i) + if done[n].Reply? && done[n].at == i then 1 else 0
  }

  /** The replies request m is owed after those before it: one, unless it is a window-change, an unknown
      request that wants none, or a payload that is parsed and makes the parser panic. */
  function Due(before: seq<Msg>, m: Msg): nat {
    match m
    case PtyReq(p) => if p.Panics? then 0 else 1
    case Env(p) => if p.Panics? then 0 else 1
    case Shell => 1
    case Exec(p) => if p.Panics? && !HasStart(before) then 0 else 1
    case WindowChange(_) => 0
    case Other(wantReply) => if wantReply then 1 else 0
  }

  lemma {:induction false} RepliesAppend(a: seq<Action>, b: seq<Action>, i: nat)
    ensures Replies(a + b, i) == Replies(a, i) + Replies(b, i)
  {
    if b == [] {
      assert a + b == a;
    } else {
      RepliesAppend(a, b[..|b| - 1], i);
      assert (a + b)[..|a + b| - 1] == a + b[..|b| - 1];
    }
  }

  lemma {:induction false} NoReplies(done: seq<Action>, i: nat)
    requires forall a :: a in done ==> a.at != i
    ensures Replies(done, i) == 0
  {
    if done != [] { NoReplies(done[..|done| - 1], i); }
  }

  lemma {:induction false} StepReplies(ms: seq<Msg>, n: nat, s: Session, spawns: bool)
    requires n < |ms| && (s.started <==> HasStart(ms[..n]))
    ensures Replies(Actions(s, ms[n], n, spawns), n) == Due(ms[..n], ms[n])
  {
    var more := Actions(s, ms[n], n, spawns);
    if more != [] { RepliesOfTwo(more, n); }
  }

  lemma {:induction false} RepliesOfTwo(more: seq<Action>, i: nat)
    requires 1 <= |more| <= 2
    ensures Replies(more, i) == (if more[0].Reply? && more[0].at == i then 1 else 0) +
                                if |more| == 2 && more[1].Reply? && more[1].at == i then 1 else 0
  {
    var one := more[..1];
    assert one[..|one| - 1] == [];
    assert Replies(one, i) == if more[0].Reply? && more[0].at == i then 1 else 0;
    if |more| == 1 { assert more == one; } else { assert more[..|more| - 1] == one; }
  }

  /** A request is answered exactly as often as it is owed, if the loop gets to it, and otherwise not. */
  lemma {:induction false} RepliesExact(ms: seq<Msg>, i: nat, spawns: bool)
    requires i < |ms|
    ensures Replies(Serve(ms, spawns).done, i) == if Serve(ms[..i], spawns).over then 0 else Due(ms[..i], ms[i])
  {
    RepliesStay(ms, i, spawns);
    OwnReplies(ms[..i + 1], spawns);
    assert ms[..i + 1][..i] == ms[..i];
  }

  lemma {:induction false} RepliesStay(ms: seq<Msg>, i: nat, spawns: bool)
    requires i < |ms|
    ensures Replies(Serve(ms, spawns).done, i) == Replies(Serve(ms[..i + 1], spawns).done, i)
  {
    if i == |ms| - 1 {
      assert ms[..i + 1] == ms;
    } else {
      var init := ms[..|ms| - 1];
      assert init[..i + 1] == ms[..i + 1];
      RepliesStay(init, i, spawns);
      LaterReplies(ms, i, spawns);
    }
  }

  lemma {:induction false} OwnReplies(ms: seq<Msg>, spawns: bool)
    requires ms != []
    ensures var n := |ms| - 1;
            Replies(Serve(ms, spawns).done, n) == if Serve(ms[..n], spawns).over then 0 else Due(ms[..n], ms[n])
  {
    var n := |ms| - 1;
    var s := Serve(ms[..n], spawns);
    EveryActionJustified(ms[..n], spawns);
    NoReplies(s.done, n);
    if !s.over {
      Variables(ms[..n], spawns);
      StepReplies(ms, n, s, spawns);
      RepliesAppend(s.done, Actions(s, ms[n], n, spawns), n);
    }
  }

  lemma {:induction false} LaterReplies(ms: seq<Msg>, i: nat, spawns: bool)
    requires i < |ms| - 1
    ensures Replies(Serve(ms, spawns).done, i) == Replies(Serve(ms[..|ms| - 1], spawns).done, i)
  {
    var n := |ms| - 1;
    var s := Serve(ms[..n], spawns);
    if !s.over {
      var r := Handle(s, ms[n], n, spawns);
      HandledReplies(s, ms[n], n, i, spawns);
      assert Serve(ms, spawns) == r;
    }
  }

  lemma {:induction false} HandledReplies(s: Session, m: Msg, n: nat, i: nat, spawns: bool)
    requires i != n
    ensures Replies(Handle(s, m, n, spawns).done, i) == Replies(s.done, i)
  {
    var more := Actions(s, m, n, spawns);
    NoOtherReplies(s, m, n, i, spawns);
    RepliesAppend(s.done, more, i);
  }

  lemma {:induction false} NoOtherReplies(s: Session, m: Msg, n: nat, i: nat, spawns: bool)
    requires i != n
    ensures Replies(Actions(s, m, n, spawns), i) == 0
  {
    var more := Actions(s, m, n, spawns);
    forall a | a in more ensures a.at != i { NewAction(s, m, n, spawns, a); }
    NoReplies(more, i);
  }

  /** A malformed exec first: the shell that follows it is refused. */
  lemma MalformedExecUsesUpStart()
    ensures Serve([Exec(Malformed), Shell], true).done == [Reply(0, false), Reply(1, false)]
  {
    var ms := [Exec(Malformed), Shell];
    assert ms[..1][..0] == [] && ms[..2] == ms;
    Unfold(ms, 0, true);
    Unfold(ms, 1, true);
  }
}
