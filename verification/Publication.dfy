/**
 Publishing a receipt: concurrent captures that share one directory and whose only lock is that a
 hard link refuses an existing target. Names and files are separate (a link makes a second name for
 the same file), every file operation is one step, and a capture may stop for good or raise at any
 step. A capture creates at most one file per kind, so a file is identified by its creator and kind.
 */
module Publication {
  datatype Kind = Owners | Handles | Manifest

  /** The three receipt names, and the temporary names that carry a capture's nonce. */
  datatype Name = Target(kind: Kind) | Temp(capture: nat, kind: Kind)

  datatype File = File(creator: nat, kind: Kind)

  /** The manifest states what it was computed from; its digests are represented by their preimages. */
  datatype Content = Rows(rows: seq<nat>) | Statement(owners: seq<nat>, handles: seq<nat>)

  /** One capture: its program point, and the rows its snapshot makes it write. */
  datatype Capture = Capture(pc: nat, owners: seq<nat>, handles: seq<nat>)

  datatype State = State(dir: map<Name, File>, disk: map<File, Content>, captures: map<nat, Capture>)

  // ---- program points, in order ----

  const LINK_OWNERS := 9
  const LINK_HANDLES := 11
  const LINK_MANIFEST := 13
  const SUCCEEDED := 15
  const CLEANING := 16
  const RAISED := 19
  const CRASHED := 20

  datatype Action =
    Check(kind: Kind) | Open(kind: Kind) | Write(kind: Kind) | Link(kind: Kind) | Unlink(kind: Kind) | Halt

  /** What a capture does at each program point; it then goes on to the next one. */
  function ActionAt(pc: nat): Action {
    if pc == 0 then Check(Manifest)
    else if pc == 1 then Check(Owners)
    else if pc == 2 then Check(Handles)
    else if pc == 3 then Open(Handles)
    else if pc == 4 then Write(Handles)
    else if pc == 5 then Open(Owners)
    else if pc == 6 then Write(Owners)
    else if pc == 7 then Open(Manifest)
    else if pc == 8 then Write(Manifest)
    else if pc == LINK_OWNERS then Link(Owners)
    else if pc == 10 then Unlink(Owners)
    else if pc == LINK_HANDLES then Link(Handles)
    else if pc == 12 then Unlink(Handles)
    else if pc == LINK_MANIFEST then Link(Manifest)
    else if pc == 14 then Unlink(Manifest)
    else if pc == CLEANING then Unlink(Owners)
    else if pc == 17 then Unlink(Handles)
    else if pc == 18 then Unlink(Manifest)
    else Halt
  }

  function Planned(c: Capture, kind: Kind): Content {
    match kind
    case Owners => Rows(c.owners)
    case Handles => Rows(c.handles)
    case Manifest => Statement(c.owners, c.handles)
  }

  /** Row by row; the manifest is a single write. */
  function NextContent(content: Content, plan: Content): Content {
    if plan.Rows? && content.Rows? && |content.rows| < |plan.rows|
    then Rows(plan.rows[..|content.rows| + 1]) else plan
  }

  function Goto(s: State, p: nat, pc: nat): State
    requires p in s.captures
  {
    s.(captures := s.captures[p := s.captures[p].(pc := pc)])
  }

  /** The effect of one action of capture `p`. A refused exclusive open or link raises into the cleanup. */
  function Perform(s: State, p: nat): State
    requires p in s.captures
  {
    var c := s.captures[p];
    match ActionAt(c.pc)
    case Check(kind) => Goto(s, p, if Target(kind) in s.dir then RAISED else c.pc + 1)
    case Open(kind) =>
      if Temp(p, kind) in s.dir then Goto(s, p, CLEANING)
      else
        Goto(State(s.dir[Temp(p, kind) := File(p, kind)], s.disk[File(p, kind) := Rows([])], s.captures), p,
             c.pc + 1)
    case Write(kind) =>
      if File(p, kind) !in s.disk then Goto(s, p, CLEANING)
      else if s.disk[File(p, kind)] == Planned(c, kind) then Goto(s, p, c.pc + 1)
      else s.(disk := s.disk[File(p, kind) := NextContent(s.disk[File(p, kind)], Planned(c, kind))])
    case Link(kind) =>
      if Target(kind) in s.dir || Temp(p, kind) !in s.dir then Goto(s, p, CLEANING)
      else Goto(s.(dir := s.dir[Target(kind) := s.dir[Temp(p, kind)]]), p, c.pc + 1)
    case Unlink(kind) => Goto(s.(dir := s.dir - {Temp(p, kind)}), p, c.pc + 1)
    case Halt => s
  }

  /** Any other exception, which is cleaned up after once the capture has begun to write, or a crash. */
  ghost predicate Stops(s: State, s': State, p: nat)
    requires p in s.captures
  {
    || (3 <= s.captures[p].pc < SUCCEEDED && s' == Goto(s, p, CLEANING))
    || (s.captures[p].pc < 3 && s' == Goto(s, p, RAISED))
    || (s.captures[p].pc < RAISED && s.captures[p].pc != SUCCEEDED && s' == Goto(s, p, CRASHED))
  }

  /** One step of one capture: its action, an exception or a crash. */
  ghost predicate Step(s: State, s': State, p: nat) {
    p in s.captures && (s' == Perform(s, p) || Stops(s, s', p))
  }

  /** An empty receipt directory and captures that have not started; a nonce is the capture's key. */
  ghost predicate Init(s: State) {
    && s.dir == map[] && s.disk == map[]
    && forall p :: p in s.captures ==> s.captures[p].pc == 0
  }

  ghost predicate StepAt(states: seq<State>, schedule: seq<nat>, i: int) {
    0 <= i < |schedule| && |states| == |schedule| + 1 && Step(states[i], states[i + 1], schedule[i])
  }

  ghost predicate Steps(states: seq<State>, schedule: seq<nat>) {
    |states| == |schedule| + 1 && forall i :: 0 <= i < |schedule| ==> StepAt(states, schedule, i)
  }

  ghost predicate Run(states: seq<State>, schedule: seq<nat>) {
    Steps(states, schedule) && Init(states[0])
  }

  // ---- the invariant ----

  /** Past the writing of its file of this kind and not in the cleanup. */
  predicate Written(pc: nat, kind: Kind) {
    pc <= SUCCEEDED && match kind case Handles => pc >= 5 case Owners => pc >= 7 case Manifest => pc >= LINK_OWNERS
  }

  function LinkPoint(kind: Kind): nat {
    match kind case Owners => LINK_OWNERS case Handles => LINK_HANDLES case Manifest => LINK_MANIFEST
  }

  predicate AfterLink(pc: nat, kind: Kind) {
    LinkPoint(kind) < pc <= SUCCEEDED
  }

  ghost predicate Complete(s: State, p: nat, kind: Kind) {
    p in s.captures && File(p, kind) in s.disk && s.disk[File(p, kind)] == Planned(s.captures[p], kind)
  }

  ghost predicate TempsOk(s: State) {
    forall p, k :: Temp(p, k) in s.dir ==> s.dir[Temp(p, k)] == File(p, k) && File(p, k) in s.disk
  }

  ghost predicate WritesOk(s: State) {
    forall p, k :: p in s.captures && Written(s.captures[p].pc, k) ==> Complete(s, p, k)
  }

  /** Whatever is published is the complete file of the one winner, which writes no more. */
  ghost predicate Published(s: State, winner: nat) {
    forall k :: Target(k) in s.dir ==>
      s.dir[Target(k)] == File(winner, k) && Complete(s, winner, k) && s.captures[winner].pc > LinkPoint(k)
  }

  /** Owners before handles before the manifest. */
  ghost predicate Ordered(s: State) {
    && (Target(Handles) in s.dir ==> Target(Owners) in s.dir)
    && (Target(Manifest) in s.dir ==> Target(Handles) in s.dir)
  }

  /** Only the winner ever passes a link. */
  ghost predicate OneWinner(dir: map<Name, File>, captures: map<nat, Capture>, winner: nat) {
    forall p, k :: p in captures && AfterLink(captures[p].pc, k) ==> Target(k) in dir && p == winner
  }

  ghost predicate Inv(s: State, winner: nat) {
    TempsOk(s) && WritesOk(s) && Ordered(s) && Published(s, winner) && OneWinner(s.dir, s.captures, winner)
  }

  /** Published names keep their file, and published files keep their content. */
  ghost predicate Kept(s: State, s': State) {
    forall k :: Target(k) in s.dir ==>
      && Target(k) in s'.dir && s'.dir[Target(k)] == s.dir[Target(k)]
      && s.dir[Target(k)] in s.disk && s.dir[Target(k)] in s'.disk
      && s'.disk[s.dir[Target(k)]] == s.disk[s.dir[Target(k)]]
  }

  /** Jumping to a later point that is past no further link keeps everything. */
  lemma {:induction false} GotoKeeps(s: State, p: nat, pc: nat, winner: nat)
    requires Inv(s, winner) && p in s.captures && pc >= s.captures[p].pc
    requires forall k :: AfterLink(pc, k) ==> AfterLink(s.captures[p].pc, k)
    requires forall k :: Written(pc, k) ==> Complete(s, p, k)
    ensures Inv(Goto(s, p, pc), winner) && Kept(s, Goto(s, p, pc))
  {
    var s' := Goto(s, p, pc);
    forall q, k | q in s'.captures && AfterLink(s'.captures[q].pc, k)
      ensures Target(k) in s'.dir && q == winner
    {
      if q == p { assert AfterLink(pc, k); }
      assert AfterLink(s.captures[q].pc, k);
    }
    assert OneWinner(s'.dir, s'.captures, winner);
  }

  /** What one action changes about the milestones of its own capture. */
  lemma {:induction false} Milestones(pc: nat, k: Kind)
    ensures !ActionAt(pc).Link? ==> (AfterLink(pc + 1, k) ==> AfterLink(pc, k))
    ensures ActionAt(pc).Link? ==> (AfterLink(pc + 1, k) ==> AfterLink(pc, k) || k == ActionAt(pc).kind)
    ensures !ActionAt(pc).Write? ==> (Written(pc + 1, k) ==> Written(pc, k))
    ensures ActionAt(pc).Write? ==> (Written(pc + 1, k) ==> Written(pc, k) || k == ActionAt(pc).kind)
    ensures ActionAt(pc) == Open(k) || ActionAt(pc) == Write(k) ==> !Written(pc, k) && pc < LinkPoint(k)
    ensures ActionAt(pc) == Link(k) ==> pc == LinkPoint(k) && Written(pc, k)
    ensures ActionAt(pc) == Link(Handles) || ActionAt(pc) == Link(Manifest) ==> AfterLink(pc, Owners)
    ensures ActionAt(pc) == Link(Manifest) ==> AfterLink(pc, Handles)
    ensures pc >= CLEANING ==> !AfterLink(pc, k) && !Written(pc, k) && !ActionAt(pc).Link?
  {
  }

  /** A jump to the cleanup or behind it keeps everything. */
  lemma {:induction false} JumpKeeps(s: State, p: nat, pc: nat, winner: nat)
    requires Inv(s, winner) && p in s.captures && CLEANING <= pc && s.captures[p].pc <= pc
    ensures Inv(Goto(s, p, pc), winner) && Kept(s, Goto(s, p, pc))
  {
    forall k ensures !AfterLink(pc, k) && !Written(pc, k) { Milestones(pc, k); }
    GotoKeeps(s, p, pc, winner);
  }

  lemma {:induction false} OpenKeeps(s: State, p: nat, kind: Kind, winner: nat)
    requires Inv(s, winner) && p in s.captures && ActionAt(s.captures[p].pc) == Open(kind)
    requires Temp(p, kind) !in s.dir
    ensures Inv(Perform(s, p), winner) && Kept(s, Perform(s, p))
  {
    var pc := s.captures[p].pc;
    var begun := State(s.dir[Temp(p, kind) := File(p, kind)], s.disk[File(p, kind) := Rows([])], s.captures);
    Milestones(pc, kind);
    assert forall q, k :: Complete(s, q, k) && !(q == p && k == kind) ==> Complete(begun, q, k);
    forall k | Written(pc + 1, k) ensures Complete(begun, p, k) { Milestones(pc, k); }
    forall k | AfterLink(pc + 1, k) ensures AfterLink(pc, k) { Milestones(pc, k); }
    GotoKeeps(begun, p, pc + 1, winner);
  }

  lemma {:induction false} WriteKeeps(s: State, p: nat, kind: Kind, winner: nat)
    requires Inv(s, winner) && p in s.captures && ActionAt(s.captures[p].pc) == Write(kind)
    ensures Inv(Perform(s, p), winner) && Kept(s, Perform(s, p))
  {
    var pc := s.captures[p].pc;
    Milestones(pc, kind);
    if File(p, kind) !in s.disk {
      JumpKeeps(s, p, CLEANING, winner);
    } else if s.disk[File(p, kind)] == Planned(s.captures[p], kind) {
      forall k | Written(pc + 1, k) ensures Complete(s, p, k) { Milestones(pc, k); }
      forall k | AfterLink(pc + 1, k) ensures AfterLink(pc, k) { Milestones(pc, k); }
      GotoKeeps(s, p, pc + 1, winner);
    } else {
      MoreWritten(s, p, kind, NextContent(s.disk[File(p, kind)], Planned(s.captures[p], kind)), winner);
    }
  }

  /** A file that is still being written is nobody's published or finished one. */
  lemma {:induction false} MoreWritten(s: State, p: nat, kind: Kind, content: Content, winner: nat)
    requires Inv(s, winner) && p in s.captures && File(p, kind) in s.disk
    requires !Written(s.captures[p].pc, kind) && s.captures[p].pc < LinkPoint(kind)
    ensures var s' := s.(disk := s.disk[File(p, kind) := content]);
            Inv(s', winner) && Kept(s, s')
  {
    var s' := s.(disk := s.disk[File(p, kind) := content]);
    forall q, k | q in s'.captures && Written(s'.captures[q].pc, k) ensures Complete(s', q, k) {
      assert Complete(s, q, k);
    }
    forall k | Target(k) in s'.dir
      ensures s'.dir[Target(k)] == File(winner, k) && File(winner, k) != File(p, kind)
      ensures Complete(s', winner, k) && s'.captures[winner].pc > LinkPoint(k)
    {
      assert Complete(s, winner, k);
    }
  }

  lemma {:induction false} UnlinkKeeps(s: State, p: nat, kind: Kind, winner: nat)
    requires Inv(s, winner) && p in s.captures && ActionAt(s.captures[p].pc) == Unlink(kind)
    ensures Inv(Perform(s, p), winner) && Kept(s, Perform(s, p))
  {
    var pc := s.captures[p].pc;
    var unlinked := s.(dir := s.dir - {Temp(p, kind)});
    assert forall q, k :: Complete(s, q, k) ==> Complete(unlinked, q, k);
    forall k | Written(pc + 1, k) ensures Complete(unlinked, p, k) { Milestones(pc, k); }
    forall k | AfterLink(pc + 1, k) ensures AfterLink(pc, k) { Milestones(pc, k); }
    GotoKeeps(unlinked, p, pc + 1, winner);
  }

  /** Only the winner links handles or manifest, and nobody is past a link before the owners are published. */
  lemma {:induction false} LinkerWins(s: State, p: nat, kind: Kind, winner: nat)
    requires OneWinner(s.dir, s.captures, winner) && Ordered(s)
    requires p in s.captures && ActionAt(s.captures[p].pc) == Link(kind) && Target(kind) !in s.dir
    ensures Target(Owners) in s.dir ==> p == winner
    ensures kind == Owners <==> Target(Owners) !in s.dir
  {
    Milestones(s.captures[p].pc, Owners);
    match kind
    case Owners =>
    case Handles => assert AfterLink(s.captures[p].pc, Owners);
    case Manifest => assert AfterLink(s.captures[p].pc, Owners);
  }

  lemma {:induction false} PastOwners(pc: nat, k: Kind)
    ensures AfterLink(pc, k) ==> AfterLink(pc, Owners)
  {
  }

  lemma {:induction false} PastIsWinner(dir: map<Name, File>, captures: map<nat, Capture>, winner: nat, q: nat, k: Kind)
    requires OneWinner(dir, captures, winner) && q in captures
    ensures AfterLink(captures[q].pc, k) ==> Target(k) in dir && q == winner
  {
  }

  lemma {:induction false} NobodyElseLinked(s: State, p: nat, kind: Kind, winner: nat, q: nat, k: Kind)
    requires OneWinner(s.dir, s.captures, winner) && Ordered(s)
    requires p in s.captures && ActionAt(s.captures[p].pc) == Link(kind) && Target(kind) !in s.dir
    requires q in s.captures && q != p
    ensures !AfterLink(s.captures[q].pc, k)
  {
    LinkerWins(s, p, kind, winner);
    PastOwners(s.captures[q].pc, k);
    PastIsWinner(s.dir, s.captures, winner, q, Owners);
  }

  lemma {:induction false} LinkKeepsWinner(s: State, p: nat, kind: Kind, winner: nat, dir: map<Name, File>,
                                           captures: map<nat, Capture>)
    requires OneWinner(s.dir, s.captures, winner) && Ordered(s)
    requires p in s.captures && ActionAt(s.captures[p].pc) == Link(kind) && Target(kind) !in s.dir
    requires dir == s.dir[Target(kind) := File(p, kind)]
    requires captures == s.captures[p := s.captures[p].(pc := s.captures[p].pc + 1)]
    ensures OneWinner(dir, captures, p)
  {
    forall q, k | q in captures && AfterLink(captures[q].pc, k)
      ensures Target(k) in dir && q == p
    {
      Milestones(s.captures[p].pc, k);
      PastIsWinner(s.dir, s.captures, winner, p, k);
      if q != p {
        NobodyElseLinked(s, p, kind, winner, q, k);
      }
    }
  }

  /** A successful link; the first one, of the owners file, decides the winner. */
  lemma {:induction false} LinkKeeps(s: State, p: nat, kind: Kind, winner: nat) returns (winner': nat)
    requires Inv(s, winner) && p in s.captures && ActionAt(s.captures[p].pc) == Link(kind)
    requires Target(kind) !in s.dir && Temp(p, kind) in s.dir
    ensures Inv(Perform(s, p), winner') && Kept(s, Perform(s, p))
    ensures Target(Owners) in s.dir ==> winner' == winner
  {
    winner' := p;
    var pc, s' := s.captures[p].pc, Perform(s, p);
    Milestones(pc, kind);
    LinkerWins(s, p, kind, winner);
    LinkKeepsWinner(s, p, kind, winner, s'.dir, s'.captures);
    assert s' == State(s.dir[Target(kind) := File(p, kind)], s.disk, s.captures[p := s.captures[p].(pc := pc + 1)]);
    LinkKeepsFiles(s, s', p, kind, winner);
    LinkKeepsOrder(s, s', p, kind);
  }

  lemma {:induction false} LinkKeepsOrder(s: State, s': State, p: nat, kind: Kind)
    requires Ordered(s) && p in s.captures && ActionAt(s.captures[p].pc) == Link(kind)
    requires forall k :: AfterLink(s.captures[p].pc, k) ==> Target(k) in s.dir
    requires s'.dir == s.dir[Target(kind) := File(p, kind)]
    ensures Ordered(s')
  {
    Milestones(s.captures[p].pc, kind);
    assert kind == Manifest ==> AfterLink(s.captures[p].pc, Handles);
    assert kind == Handles ==> AfterLink(s.captures[p].pc, Owners);
  }

  lemma {:induction false} LinkKeepsFiles(s: State, s': State, p: nat, kind: Kind, winner: nat)
    requires TempsOk(s) && WritesOk(s) && Published(s, winner)
    requires p in s.captures && s.captures[p].pc == LinkPoint(kind) && ActionAt(LinkPoint(kind)) == Link(kind)
    requires Target(kind) !in s.dir && (kind != Owners ==> p == winner)
    requires kind == Owners ==> forall k :: Target(k) !in s.dir
    requires s'.dir == s.dir[Target(kind) := File(p, kind)] && s'.disk == s.disk
    requires s'.captures == s.captures[p := s.captures[p].(pc := s.captures[p].pc + 1)]
    ensures TempsOk(s') && WritesOk(s') && Published(s', p) && Kept(s, s')
  {
    forall q, k | q in s'.captures && Written(s'.captures[q].pc, k) ensures Complete(s', q, k) {
      Milestones(LinkPoint(kind), k);
      assert Complete(s, q, k);
    }
    forall k | Target(k) in s'.dir
      ensures s'.dir[Target(k)] == File(p, k) && Complete(s', p, k) && s'.captures[p].pc > LinkPoint(k)
    {
      Milestones(LinkPoint(kind), kind);
      if k == kind {
        assert Complete(s, p, k);
      } else {
        assert Complete(s, winner, k);
      }
    }
  }

  lemma {:induction false} StopKeeps(s: State, s': State, p: nat, winner: nat)
    requires Inv(s, winner) && p in s.captures && Stops(s, s', p)
    ensures Inv(s', winner) && Kept(s, s')
  {
    JumpKeeps(s, p, s'.captures[p].pc, winner);
  }

  lemma {:induction false} CheckKeeps(s: State, p: nat, kind: Kind, winner: nat)
    requires Inv(s, winner) && p in s.captures && ActionAt(s.captures[p].pc) == Check(kind)
    ensures Inv(Perform(s, p), winner) && Kept(s, Perform(s, p))
  {
    var pc := s.captures[p].pc;
    if Target(kind) in s.dir {
      JumpKeeps(s, p, RAISED, winner);
    } else {
      forall k ensures (AfterLink(pc + 1, k) ==> AfterLink(pc, k)) && (Written(pc + 1, k) ==> Complete(s, p, k)) {
        Milestones(pc, k);
      }
      GotoKeeps(s, p, pc + 1, winner);
    }
  }

  /** Every action keeps the invariant and everything already published. */
  lemma {:induction false} ActionKeeps(s: State, p: nat, winner: nat) returns (winner': nat)
    requires Inv(s, winner) && p in s.captures
    ensures Inv(Perform(s, p), winner') && Kept(s, Perform(s, p))
    ensures Target(Owners) in s.dir ==> winner' == winner
  {
    winner' := winner;
    match ActionAt(s.captures[p].pc)
    case Check(kind) => CheckKeeps(s, p, kind, winner);
    case Open(kind) =>
      if Temp(p, kind) in s.dir { JumpKeeps(s, p, CLEANING, winner); } else { OpenKeeps(s, p, kind, winner); }
    case Write(kind) => WriteKeeps(s, p, kind, winner);
    case Link(kind) =>
      if Target(kind) in s.dir || Temp(p, kind) !in s.dir {
        JumpKeeps(s, p, CLEANING, winner);
      } else {
        winner' := LinkKeeps(s, p, kind, winner);
      }
    case Unlink(kind) => UnlinkKeeps(s, p, kind, winner);
    case Halt =>
  }

  /** Every step keeps the invariant and everything already published. */
  lemma {:induction false} StepKeeps(s: State, s': State, p: nat, winner: nat) returns (winner': nat)
    requires Inv(s, winner) && Step(s, s', p)
    ensures Inv(s', winner') && Kept(s, s')
    ensures Target(Owners) in s.dir ==> winner' == winner
  {
    if s' == Perform(s, p) {
      winner' := ActionKeeps(s, p, winner);
    } else {
      StopKeeps(s, s', p, winner);
      winner' := winner;
    }
  }

  // ---- over whole runs ----

  lemma {:induction false} InitInv(s: State)
    requires Init(s)
    ensures Inv(s, 0)
  {
    forall p, k | p in s.captures ensures !Written(s.captures[p].pc, k) && !AfterLink(s.captures[p].pc, k) {
    }
  }

  lemma {:induction false} RunInv(states: seq<State>, schedule: seq<nat>, n: nat) returns (winner: nat)
    requires Run(states, schedule) && n < |states|
    ensures Inv(states[n], winner)
  {
    if n == 0 {
      winner := 0;
      InitInv(states[0]);
    } else {
      var w := RunInv(states, schedule, n - 1);
      assert StepAt(states, schedule, n - 1);
      winner := StepKeeps(states[n - 1], states[n], schedule[n - 1], w);
    }
  }

  /** Once published, a receipt file is never overwritten, replaced or removed, whatever runs and crashes. */
  lemma {:induction false} PublishedForever(states: seq<State>, schedule: seq<nat>, m: nat, n: nat, kind: Kind)
    requires Run(states, schedule) && m <= n < |states| && Target(kind) in states[m].dir
    ensures var file := states[m].dir[Target(kind)];
            && Target(kind) in states[n].dir && states[n].dir[Target(kind)] == file
            && file in states[m].disk && file in states[n].disk && states[n].disk[file] == states[m].disk[file]
  {
    if m == n {
      var w := RunInv(states, schedule, m);
    } else {
      PublishedForever(states, schedule, m, n - 1, kind);
      var w := RunInv(states, schedule, n - 1);
      assert StepAt(states, schedule, n - 1);
      var w' := StepKeeps(states[n - 1], states[n], schedule[n - 1], w);
    }
  }

  /**
   In every reachable state all published files come, complete, from one capture, and the manifest is
   there only with that capture's owners and handles files, which are exactly what it states.
   */
  lemma {:induction false} OneCapturePublishes(states: seq<State>, schedule: seq<nat>, n: nat) returns (winner: nat)
    requires Run(states, schedule) && n < |states|
    ensures forall k :: Target(k) in states[n].dir ==>
      && states[n].dir[Target(k)] == File(winner, k)
      && winner in states[n].captures && File(winner, k) in states[n].disk
      && states[n].disk[File(winner, k)] == Planned(states[n].captures[winner], k)
    ensures Target(Manifest) in states[n].dir ==>
      && Target(Owners) in states[n].dir && Target(Handles) in states[n].dir
      && var stated := states[n].disk[File(winner, Manifest)];
         && stated.Statement?
         && states[n].disk[states[n].dir[Target(Owners)]] == Rows(stated.owners)
         && states[n].disk[states[n].dir[Target(Handles)]] == Rows(stated.handles)
  {
    winner := RunInv(states, schedule, n);
  }

  /** A capture reports success only for its own complete receipt, so at most one ever does. */
  lemma {:induction false} OneSuccess(states: seq<State>, schedule: seq<nat>, m: nat, n: nat, p: nat, q: nat)
    requires Run(states, schedule) && m <= n < |states|
    requires p in states[m].captures && states[m].captures[p].pc == SUCCEEDED
    requires q in states[n].captures && states[n].captures[q].pc == SUCCEEDED
    ensures p == q && forall k :: Target(k) in states[n].dir && states[n].dir[Target(k)] == File(p, k)
  {
    var w := RunInv(states, schedule, m);
    var v := RunInv(states, schedule, n);
    forall k: Kind
      ensures Target(k) in states[m].dir && states[m].dir[Target(k)] == File(p, k)
    {
      assert AfterLink(states[m].captures[p].pc, k);
    }
    PublishedForever(states, schedule, m, n, Owners);
    assert AfterLink(states[n].captures[q].pc, Owners);
    forall k: Kind
      ensures Target(k) in states[n].dir && states[n].dir[Target(k)] == File(p, k)
    {
      PublishedForever(states, schedule, m, n, k);
    }
  }

  /** A stopped capture does not go back. */
  lemma {:induction false} StepStaysStopped(s: State, s': State, q: nat, p: nat)
    requires Step(s, s', q) && p in s.captures && s.captures[p].pc >= CLEANING
    ensures p in s'.captures && s'.captures[p].pc >= CLEANING
  {
  }

  /** The winner has stopped before its manifest. */
  ghost predicate Abandoned(s: State, p: nat) {
    && Target(Owners) in s.dir && s.dir[Target(Owners)] == File(p, Owners)
    && p in s.captures && s.captures[p].pc >= CLEANING
    && Target(Manifest) !in s.dir
  }

  /** While the winner is stopped no step publishes a manifest. */
  lemma {:induction false} AbandonedStep(s: State, s': State, q: nat, p: nat, winner: nat)
    requires Inv(s, winner) && Step(s, s', q) && Abandoned(s, p)
    ensures Abandoned(s', p)
  {
    StepStaysStopped(s, s', q, p);
    var w := StepKeeps(s, s', q, winner);
    Milestones(s.captures[q].pc, Handles);
  }

  /**
   An abandoned receipt is never completed: if the winner raised or crashed after publishing its owners
   file but before its manifest, no manifest is ever published in that directory.
   */
  lemma {:induction false} AbandonedStaysIncomplete(states: seq<State>, schedule: seq<nat>, m: nat, n: nat, p: nat)
    requires Run(states, schedule) && m <= n < |states|
    requires Abandoned(states[m], p)
    ensures Abandoned(states[n], p)
  {
    if m < n {
      AbandonedStaysIncomplete(states, schedule, m, n - 1, p);
      var w := RunInv(states, schedule, n - 1);
      assert StepAt(states, schedule, n - 1);
      AbandonedStep(states[n - 1], states[n], schedule[n - 1], p, w);
    }
  }

  // ---- a receipt does get published ----

  function OpenPoint(kind: Kind): nat {
    match kind case Handles => 3 case Owners => 5 case Manifest => 7
  }

  /** A capture that has not stopped has its temporary names from their opening to behind their link. */
  ghost predicate TempExact(s: State, p: nat, k: Kind) {
    p in s.captures && s.captures[p].pc <= SUCCEEDED ==>
      (Temp(p, k) in s.dir <==> OpenPoint(k) < s.captures[p].pc <= LinkPoint(k) + 1)
  }

  ghost predicate TempsExact(s: State) {
    forall p, k :: TempExact(s, p, k)
  }

  lemma {:induction false} OthersTemps(s: State, s': State, p: nat, q: nat, k: Kind)
    requires Step(s, s', p) && q != p && TempExact(s, q, k)
    ensures TempExact(s', q, k)
  {
  }

  lemma {:induction false} OwnTemps(s: State, s': State, p: nat, k: Kind)
    requires Step(s, s', p) && TempExact(s, p, k)
    ensures TempExact(s', p, k)
  {
  }

  lemma {:induction false} StepKeepsTemps(s: State, s': State, p: nat)
    requires TempsExact(s) && Step(s, s', p)
    ensures TempsExact(s')
  {
    forall q, k ensures TempExact(s', q, k) {
      if q == p { OwnTemps(s, s', p, k); } else { OthersTemps(s, s', p, q, k); }
    }
  }

  lemma {:induction false} RunTemps(states: seq<State>, schedule: seq<nat>, n: nat)
    requires Run(states, schedule) && n < |states|
    ensures TempsExact(states[n])
  {
    if n > 0 {
      RunTemps(states, schedule, n - 1);
      assert StepAt(states, schedule, n - 1);
      StepKeepsTemps(states[n - 1], states[n], schedule[n - 1]);
    }
  }

  /** The capture has not stopped, and nothing is published but what it has published itself. */
  ghost predicate Free(s: State, p: nat) {
    && p in s.captures && s.captures[p].pc <= SUCCEEDED
    && forall k :: Target(k) in s.dir ==> AfterLink(s.captures[p].pc, k)
  }

  /** How many writes a file still takes. */
  function Left(content: Content, plan: Content): nat {
    if content == plan then 0
    else if plan.Rows? && content.Rows? && |content.rows| < |plan.rows| then |plan.rows| - |content.rows|
    else 1
  }

  lemma {:induction false} NextLeaves(content: Content, plan: Content)
    requires content != plan
    ensures Left(NextContent(content, plan), plan) < Left(content, plan)
  {
    if plan.Rows? && content.Rows? && |content.rows| < |plan.rows| {
      var n := |content.rows| + 1;
      assert n == |plan.rows| ==> plan.rows[..n] == plan.rows;
    }
  }

  function WritesLeft(s: State, p: nat): nat
    requires p in s.captures
  {
    var c := s.captures[p];
    if ActionAt(c.pc).Write? && File(p, ActionAt(c.pc).kind) in s.disk
    then Left(s.disk[File(p, ActionAt(c.pc).kind)], Planned(c, ActionAt(c.pc).kind))
    else 0
  }

  /** A free capture's next action goes through: to the next point, or one write further. */
  lemma {:induction false} FreeProceeds(s: State, p: nat)
    requires TempsOk(s) && TempsExact(s) && Free(s, p) && s.captures[p].pc < SUCCEEDED
    ensures var s' := Perform(s, p);
            && Free(s', p)
            && (s'.captures[p].pc == s.captures[p].pc + 1
                || (s'.captures[p].pc == s.captures[p].pc && WritesLeft(s', p) < WritesLeft(s, p)))
  {
    var c := s.captures[p];
    assert TempExact(s, p, Owners) && TempExact(s, p, Handles) && TempExact(s, p, Manifest);
    if ActionAt(c.pc).Write? {
      var kind := ActionAt(c.pc).kind;
      if s.disk[File(p, kind)] != Planned(c, kind) {
        NextLeaves(s.disk[File(p, kind)], Planned(c, kind));
      }
    }
  }

  /** A free capture that runs undisturbed reports success. */
  lemma {:induction false} FreeFinishes(s: State, p: nat, winner: nat) returns (states: seq<State>, schedule: seq<nat>)
    requires Inv(s, winner) && TempsExact(s) && Free(s, p)
    ensures Steps(states, schedule) && states[0] == s
    ensures var last := states[|schedule|]; p in last.captures && last.captures[p].pc == SUCCEEDED
    decreases SUCCEEDED - s.captures[p].pc, WritesLeft(s, p)
  {
    if s.captures[p].pc == SUCCEEDED {
      states, schedule := [s], [];
    } else {
      var s' := Perform(s, p);
      FreeProceeds(s, p);
      StepKeepsTemps(s, s', p);
      var winner' := StepKeeps(s, s', p, winner);
      var rest, after := FreeFinishes(s', p, winner');
      states, schedule := [s] + rest, [p] + after;
      forall i | 0 <= i < |schedule| ensures StepAt(states, schedule, i) {
        assert i > 0 ==> StepAt(rest, after, i - 1);
      }
    }
  }

  /** The capture whose owners file is published is free while it has not stopped. */
  lemma {:induction false} WinnerIsFree(s: State, p: nat, winner: nat)
    requires Inv(s, winner) && p in s.captures && s.captures[p].pc <= SUCCEEDED
    requires Target(Owners) in s.dir ==> s.dir[Target(Owners)] == File(p, Owners)
    ensures Free(s, p)
  {
  }

  /**
   In every reachable state a capture that has not stopped, and before which no other has published its
   owners file, can go on to report success with a complete receipt. In particular a fresh directory can
   get its receipt, and the winner is never held up.
   */
  lemma {:induction false} WinnerCanFinish(states: seq<State>, schedule: seq<nat>, p: nat)
    returns (states': seq<State>, schedule': seq<nat>)
    requires Run(states, schedule)
    requires var s := states[|schedule|];
             && p in s.captures && s.captures[p].pc <= SUCCEEDED
             && (Target(Owners) in s.dir ==> s.dir[Target(Owners)] == File(p, Owners))
    ensures Run(states', schedule') && states <= states' && schedule <= schedule'
    ensures var last := states'[|schedule'|];
            && p in last.captures && last.captures[p].pc == SUCCEEDED
            && forall k :: Target(k) in last.dir && last.dir[Target(k)] == File(p, k)
  {
    var n := |schedule|;
    var w := RunInv(states, schedule, n);
    RunTemps(states, schedule, n);
    WinnerIsFree(states[n], p, w);
    var rest, after := FreeFinishes(states[n], p, w);
    states', schedule' := states + rest[1..], schedule + after;
    forall i | 0 <= i < |schedule'| ensures StepAt(states', schedule', i) {
      if i < n {
        assert StepAt(states, schedule, i);
      } else {
        assert StepAt(rest, after, i - n) && states'[i] == rest[i - n];
      }
    }
    assert Run(states', schedule');
    OneSuccess(states', schedule', |schedule'|, |schedule'|, p, p);
  }

  /** From an empty directory every capture has a run that publishes its receipt, manifest included. */
  lemma {:induction false} EmptyDirectoryGetsReceipt(s: State, p: nat) returns (states: seq<State>, schedule: seq<nat>)
    requires Init(s) && p in s.captures
    ensures Run(states, schedule) && states[0] == s
    ensures var last := states[|schedule|];
            && Target(Manifest) in last.dir && last.dir[Target(Manifest)] == File(p, Manifest)
            && File(p, Manifest) in last.disk
            && last.disk[File(p, Manifest)] == Statement(s.captures[p].owners, s.captures[p].handles)
  {
    states, schedule := WinnerCanFinish([s], [], p);
    assert states[0] == [s][0];
    PlansStay(states, schedule, |schedule|, p);
    var w := OneCapturePublishes(states, schedule, |schedule|);
  }

  /** What a capture writes is fixed by its snapshot. */
  lemma {:induction false} PlansStay(states: seq<State>, schedule: seq<nat>, n: nat, p: nat)
    requires Run(states, schedule) && n < |states| && p in states[0].captures
    ensures p in states[n].captures
    ensures forall k :: Planned(states[n].captures[p], k) == Planned(states[0].captures[p], k)
  {
    if n > 0 {
      PlansStay(states, schedule, n - 1, p);
      assert StepAt(states, schedule, n - 1);
    }
  }

  /** The winner's own links are never refused: they go through whenever it comes to them. */
  lemma {:induction false} WinnerIsNotRefused(states: seq<State>, schedule: seq<nat>, n: nat, p: nat, kind: Kind)
    requires Run(states, schedule) && n < |states|
    requires Target(Owners) in states[n].dir && states[n].dir[Target(Owners)] == File(p, Owners)
    requires p in states[n].captures && states[n].captures[p].pc == LinkPoint(kind)
    ensures var s' := Perform(states[n], p);
            && Target(kind) in s'.dir && s'.dir[Target(kind)] == File(p, kind)
            && s'.captures[p].pc == LinkPoint(kind) + 1
  {
    var w := RunInv(states, schedule, n);
    RunTemps(states, schedule, n);
    WinnerIsFree(states[n], p, w);
    assert TempExact(states[n], p, kind);
  }

  // ---- what a capture leaves behind ----

  /** The step of the cleanup that removes a temporary name. */
  function CleanPoint(kind: Kind): nat {
    match kind case Owners => CLEANING case Handles => CLEANING + 1 case Manifest => CLEANING + 2
  }

  /** In the cleanup the temporary names go one by one; after it there are none. */
  ghost predicate TempGone(s: State, p: nat, k: Kind) {
    p in s.captures && CleanPoint(k) < s.captures[p].pc < CRASHED ==> Temp(p, k) !in s.dir
  }

  ghost predicate TempsGone(s: State) {
    forall p, k :: TempGone(s, p, k)
  }

  lemma {:induction false} StepCleans(s: State, s': State, p: nat)
    requires TempsExact(s) && TempsGone(s) && Step(s, s', p)
    ensures TempsGone(s')
  {
    forall q, k ensures TempGone(s', q, k) {
      assert TempGone(s, q, k) && TempExact(s, q, k);
    }
  }

  lemma {:induction false} RunCleans(states: seq<State>, schedule: seq<nat>, n: nat)
    requires Run(states, schedule) && n < |states|
    ensures TempsGone(states[n])
  {
    if n > 0 {
      RunCleans(states, schedule, n - 1);
      RunTemps(states, schedule, n - 1);
      assert StepAt(states, schedule, n - 1);
      StepCleans(states[n - 1], states[n], schedule[n - 1]);
    }
  }

  /** Over every run a capture that has succeeded, or raised, has left no temporary name; only a crash can. */
  lemma {:induction false} NothingLeftBehind(states: seq<State>, schedule: seq<nat>, n: nat, p: nat, kind: Kind)
    requires Run(states, schedule) && n < |states|
    requires p in states[n].captures && states[n].captures[p].pc in {SUCCEEDED, RAISED}
    ensures Temp(p, kind) !in states[n].dir
  {
    RunTemps(states, schedule, n);
    RunCleans(states, schedule, n);
    assert TempExact(states[n], p, kind) && TempGone(states[n], p, kind);
  }

  /** Whichever receipt file is there, the three checks of a capture refuse it before it has written anything. */
  lemma {:induction false} ChecksRefuse(s: State, p: nat, kind: Kind)
    requires p in s.captures && s.captures[p].pc == 0 && Target(kind) in s.dir
    ensures Perform(Perform(Perform(s, p), p), p) ==
            s.(captures := s.captures[p := s.captures[p].(pc := RAISED)])
  {
    var once := Perform(s, p);
    var twice := Perform(once, p);
    assert once.dir == twice.dir == s.dir;
    assert Perform(twice, p).captures == s.captures[p := s.captures[p].(pc := RAISED)];
  }

  function CheckPoint(kind: Kind): nat {
    match kind case Manifest => 0 case Owners => 1 case Handles => 2
  }

  /** The capture has not begun to write, and will not. */
  ghost predicate Held(s: State, p: nat, kind: Kind) {
    && p in s.captures && Target(kind) in s.dir
    && (s.captures[p].pc <= CheckPoint(kind) || s.captures[p].pc >= RAISED)
  }

  lemma {:induction false} HeldStep(s: State, s': State, q: nat, p: nat, kind: Kind, winner: nat)
    requires Inv(s, winner) && Step(s, s', q) && Held(s, p, kind)
    ensures Held(s', p, kind)
    ensures forall k :: Temp(p, k) in s'.dir ==> Temp(p, k) in s.dir
    ensures forall k :: File(p, k) in s'.disk ==> File(p, k) in s.disk && s'.disk[File(p, k)] == s.disk[File(p, k)]
  {
    var w := StepKeeps(s, s', q, winner);
  }

  /** A capture that starts when some receipt file is there already writes nothing, whatever else runs. */
  lemma {:induction false} LateComerWritesNothing(states: seq<State>, schedule: seq<nat>, m: nat, n: nat, p: nat,
                                                  kind: Kind)
    requires Run(states, schedule) && m <= n < |states|
    requires p in states[m].captures && states[m].captures[p].pc == 0 && Target(kind) in states[m].dir
    ensures Held(states[n], p, kind)
    ensures forall k :: Temp(p, k) in states[n].dir ==> Temp(p, k) in states[m].dir
    ensures forall k :: File(p, k) in states[n].disk ==>
      File(p, k) in states[m].disk && states[n].disk[File(p, k)] == states[m].disk[File(p, k)]
  {
    if m < n {
      LateComerWritesNothing(states, schedule, m, n - 1, p, kind);
      var w := RunInv(states, schedule, n - 1);
      assert StepAt(states, schedule, n - 1);
      HeldStep(states[n - 1], states[n], schedule[n - 1], p, kind, w);
    }
  }
}
