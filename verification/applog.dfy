/**
The application logger at lock granularity: any number of goroutines log,
attach a database and close, one drainer empties the queue, and their steps
interleave freely.
*/
module AppLog {
  import opened Common

  const QUEUE_SIZE: nat := 1024

  /** The drainer's name as a lock holder. */
  const DRAINER: nat := 0

  datatype Entry = Entry(id: nat, text: string)

  /** A read-write lock. */
  datatype Lock = Lock(readers: set<nat>, writer: Option<nat>)

  datatype Once = Unused | Running(owner: nat) | Used

  /** Where a call to Warn or Error, to Attach or to Close stands. */
  datatype Process =
    | WantRead(entry: Entry) | Looking(entry: Entry) | Sending(entry: Entry) | Dropping(entry: Entry) | Leaving
    | AttachLock(present: bool) | AttachSet(present: bool) | AttachUnlock | AttachOnce | AttachStore | AttachGo
    | AttachDone
    | CloseOnce | CloseLock | CloseFlag | CloseQueue | CloseUnlock | CloseDone | CloseCheck | CloseWait

  /** Exited means the done channel is closed. */
  datatype Drainer = NotStarted | Idle | Taken(entry: Entry) | ReadingDb(entry: Entry) | Writing(entry: Entry) | Exited

  datatype Life = Life(closed: bool, queueClosed: bool, db: bool, draining: bool, start: Once, stop: Once)

  /** queue and dropped are the logger's own; the rest is history that no step reads. */
  datatype Journal = Journal(
    queue: seq<Entry>, dropped: nat,
    accepted: seq<Entry>, taken: seq<Entry>, handled: seq<Entry>, logged: set<nat>, lost: set<nat>)

  datatype State = State(
    lock: Lock, life: Life, journal: Journal, drainer: Drainer, processes: map<nat, Process>, next: nat, panicked: bool)

  function Initial(): State {
    State(Lock({}, None), Life(false, false, false, false, Unused, Unused), Journal([], 0, [], [], [], {}, {}),
          NotStarted, map[], 1, false)
  }

  datatype Event =
    | LogCall(text: string)
    | AttachCall(present: bool)
    | CloseCall
    | Advance(p: nat)
    | GiveUp(p: nat)
    | Drain

  predicate CanRead(lock: Lock) { lock.writer.None? }

  predicate CanWrite(lock: Lock) { lock.writer.None? && lock.readers == {} }

  predicate Enabled(s: State, e: Event) {
    match e
    case Advance(p) => p in s.processes && !Waits(s, s.processes[p])
    case GiveUp(p) => p in s.processes && s.processes[p].CloseWait?
    case Drain => !DrainerWaits(s)
    case _ => true
  }

  predicate Waits(s: State, proc: Process) {
    match proc
    case WantRead(_) => !CanRead(s.lock)
    case AttachLock(_) => !CanWrite(s.lock)
    case CloseLock => !CanWrite(s.lock)
    case AttachOnce => s.life.start.Running?
    case CloseOnce => s.life.stop.Running?
    case CloseWait => !s.drainer.Exited?
    case _ => false
  }

  predicate DrainerWaits(s: State) {
    match s.drainer
    case NotStarted => true
    case Idle => s.journal.queue == [] && !s.life.queueClosed
    case Taken(_) => !CanRead(s.lock)
    case Exited => true
    case _ => false
  }

  function Spawn(s: State, proc: Process): State {
    s.(processes := s.processes[s.next := proc], next := s.next + 1)
  }

  /** The send with its default: accepted, refused by a full queue, or the panic of a closed one. */
  function Send(s: State, p: nat, e: Entry): State {
    if s.life.queueClosed then s.(panicked := true)
    else if |s.journal.queue| < QUEUE_SIZE then
      s.(journal := s.journal.(queue := s.journal.queue + [e], accepted := s.journal.accepted + [e]),
         processes := s.processes[p := Leaving])
    else s.(processes := s.processes[p := Dropping(e)])
  }

  function LogStep(s: State, p: nat, proc: Process): State {
    match proc
    case WantRead(e) =>
      s.(lock := s.lock.(readers := s.lock.readers + {p}), processes := s.processes[p := Looking(e)])
    case Looking(e) => s.(processes := s.processes[p := if s.life.closed then Dropping(e) else Sending(e)])
    case Sending(e) => Send(s, p, e)
    case Dropping(e) =>
      s.(journal := s.journal.(dropped := s.journal.dropped + 1, lost := s.journal.lost + {e.id}),
         processes := s.processes[p := Leaving])
    case _ => s.(lock := s.lock.(readers := s.lock.readers - {p}), processes := s.processes - {p})
  }

  function AttachStep(s: State, p: nat, proc: Process): State {
    match proc
    case AttachLock(d) => s.(lock := s.lock.(writer := Some(p)), processes := s.processes[p := AttachSet(d)])
    case AttachSet(d) => s.(life := s.life.(db := d), processes := s.processes[p := AttachUnlock])
    case AttachUnlock => s.(lock := s.lock.(writer := None), processes := s.processes[p := AttachOnce])
    case AttachOnce =>
      if s.life.start.Unused? then
        s.(life := s.life.(start := Running(p)), processes := s.processes[p := AttachStore])
      else s.(processes := s.processes - {p})
    case AttachStore => s.(life := s.life.(draining := true), processes := s.processes[p := AttachGo])
    case AttachGo => s.(drainer := Idle, processes := s.processes[p := AttachDone])
    case _ => s.(life := s.life.(start := Used), processes := s.processes - {p})
  }

  function CloseStep(s: State, p: nat, proc: Process): State {
    match proc
    case CloseOnce =>
      if s.life.stop.Unused? then s.(life := s.life.(stop := Running(p)), processes := s.processes[p := CloseLock])
      else s.(processes := s.processes[p := CloseCheck])
    case CloseLock => s.(lock := s.lock.(writer := Some(p)), processes := s.processes[p := CloseFlag])
    case CloseFlag => s.(life := s.life.(closed := true), processes := s.processes[p := CloseQueue])
    case CloseQueue =>
      if s.life.queueClosed then s.(panicked := true)
      else s.(life := s.life.(queueClosed := true), processes := s.processes[p := CloseUnlock])
    case CloseUnlock => s.(lock := s.lock.(writer := None), processes := s.processes[p := CloseDone])
    case CloseDone => s.(life := s.life.(stop := Used), processes := s.processes[p := CloseCheck])
    case CloseCheck => s.(processes := if s.life.draining then s.processes[p := CloseWait] else s.processes - {p})
    case _ => s.(processes := s.processes - {p})
  }

  predicate IsLog(proc: Process) {
    proc.WantRead? || proc.Looking? || proc.Sending? || proc.Dropping? || proc.Leaving?
  }

  predicate Starting(proc: Process) {
    proc.AttachStore? || proc.AttachGo? || proc.AttachDone?
  }

  predicate IsAttach(proc: Process) {
    proc.AttachLock? || proc.AttachSet? || proc.AttachUnlock? || proc.AttachOnce? || Starting(proc)
  }

  function DrainStep(s: State): State {
    var j := s.journal;
    match s.drainer
    case Idle =>
      if j.queue != [] then
        s.(journal := j.(queue := j.queue[1..], taken := j.taken + [j.queue[0]]), drainer := Taken(j.queue[0]))
      else s.(drainer := Exited)
    case Taken(e) => s.(lock := s.lock.(readers := s.lock.readers + {DRAINER}), drainer := ReadingDb(e))
    case ReadingDb(e) =>
      s.(lock := s.lock.(readers := s.lock.readers - {DRAINER}), drainer := if s.life.db then Writing(e) else Idle,
         journal := if s.life.db then j else j.(handled := j.handled + [e]))
    case Writing(e) => s.(journal := j.(handled := j.handled + [e]), drainer := Idle)
    case _ => s
  }

  function Step(s: State, p: nat): State
    requires p in s.processes
  {
    var proc := s.processes[p];
    if IsLog(proc) then LogStep(s, p, proc)
    else if IsAttach(proc) then AttachStep(s, p, proc)
    else CloseStep(s, p, proc)
  }

  function Apply(s: State, e: Event): State
    requires Enabled(s, e)
  {
    match e
    case LogCall(text) =>
      Spawn(s, WantRead(Entry(s.next, text))).(journal := s.journal.(logged := s.journal.logged + {s.next}))
    case AttachCall(present) => Spawn(s, AttachLock(present))
    case CloseCall => Spawn(s, CloseOnce)
    case Advance(p) => Step(s, p)
    case GiveUp(p) => s.(processes := s.processes - {p})
    case Drain => DrainStep(s)
  }

  // --- who holds the lock ---

  predicate Holds(proc: Process) {
    proc.Looking? || proc.Sending? || proc.Dropping? || proc.Leaving?
  }

  predicate Writes(proc: Process) {
    proc.AttachSet? || proc.AttachUnlock? || proc.CloseFlag? || proc.CloseQueue? || proc.CloseUnlock?
  }

  /** Readers stand between the locks of a logging call; the writer stands between those of Attach or Close. */
  ghost predicate HoldsOk(lock: Lock, processes: map<nat, Process>, p: nat) {
    && (p in processes && Holds(processes[p]) <==> p in lock.readers && p != DRAINER)
    && (p in processes && Writes(processes[p]) <==> lock.writer == Some(p))
  }

  ghost predicate LockOk(lock: Lock, processes: map<nat, Process>, drainer: Drainer, next: nat) {
    && (lock.writer.Some? ==> lock.readers == {})
    && (DRAINER in lock.readers <==> drainer.ReadingDb?)
    && (forall p {:trigger HoldsOk(lock, processes, p)} :: HoldsOk(lock, processes, p))
    && DRAINER !in processes && next > DRAINER && (forall p :: p in processes ==> p < next)
  }

  ghost predicate Locked(s: State) {
    LockOk(s.lock, s.processes, s.drainer, s.next)
  }

  // --- attaching and closing happen once ---

  ghost predicate AttachingOk(life: Life, drainer: Drainer, processes: map<nat, Process>, p: nat) {
    && (p in processes && Starting(processes[p]) <==> life.start == Running(p))
    && (p in processes ==>
          var proc := processes[p];
          && (proc.AttachStore? || proc.AttachGo? ==> drainer.NotStarted?)
          && (proc.AttachGo? || proc.AttachDone? ==> life.draining)
          && (proc.AttachDone? ==> !drainer.NotStarted?))
  }

  ghost predicate AttachOk(life: Life, drainer: Drainer, processes: map<nat, Process>, next: nat) {
    && (life.start.Unused? ==> drainer.NotStarted?)
    && (life.start.Used? ==> !drainer.NotStarted?)
    && (!drainer.NotStarted? ==> life.draining)
    && (forall p {:trigger AttachingOk(life, drainer, processes, p)} :: AttachingOk(life, drainer, processes, p))
    && (forall p :: p in processes ==> p < next)
  }

  ghost predicate Attached(s: State) {
    AttachOk(s.life, s.drainer, s.processes, s.next)
  }

  predicate Stopping(proc: Process) {
    proc.CloseLock? || proc.CloseFlag? || proc.CloseQueue? || proc.CloseUnlock? || proc.CloseDone?
  }

  /** A send is under way only before the flag is set; the queue is closed after it. */
  ghost predicate ClosingOk(life: Life, processes: map<nat, Process>, p: nat) {
    && (p in processes && Stopping(processes[p]) <==> life.stop == Running(p))
    && (p in processes ==>
          var proc := processes[p];
          && (proc.Sending? ==> !life.closed)
          && (proc.CloseLock? || proc.CloseFlag? ==> !life.closed)
          && (proc.CloseQueue? ==> life.closed && !life.queueClosed)
          && (proc.CloseUnlock? || proc.CloseDone? || proc.CloseCheck? || proc.CloseWait? ==> life.queueClosed))
  }

  ghost predicate CloseOk(life: Life, processes: map<nat, Process>, next: nat) {
    && (life.queueClosed ==> life.closed)
    && (life.stop.Unused? ==> !life.closed)
    && (life.stop.Used? ==> life.queueClosed)
    && (forall p {:trigger ClosingOk(life, processes, p)} :: ClosingOk(life, processes, p))
    && (forall p :: p in processes ==> p < next)
  }

  ghost predicate Closes(s: State) {
    CloseOk(s.life, s.processes, s.next)
  }

  lemma LockLogStep(s: State, p: nat)
    requires Locked(s) && Enabled(s, Advance(p)) && IsLog(s.processes[p])
    ensures Locked(Step(s, p))
  {
    var t := Step(s, p);
    assert HoldsOk(s.lock, s.processes, p);
    forall q ensures HoldsOk(t.lock, t.processes, q) { assert HoldsOk(s.lock, s.processes, q); }
  }

  lemma LockAttachStep(s: State, p: nat)
    requires Locked(s) && Attached(s) && Enabled(s, Advance(p)) && IsAttach(s.processes[p])
    ensures Locked(Step(s, p))
  {
    var t := Step(s, p);
    assert AttachingOk(s.life, s.drainer, s.processes, p);
    assert HoldsOk(s.lock, s.processes, p);
    forall q ensures HoldsOk(t.lock, t.processes, q) { assert HoldsOk(s.lock, s.processes, q); }
  }

  lemma LockCloseStep(s: State, p: nat)
    requires Locked(s) && Enabled(s, Advance(p)) && !IsLog(s.processes[p]) && !IsAttach(s.processes[p])
    ensures Locked(Step(s, p))
  {
    var t := Step(s, p);
    assert HoldsOk(s.lock, s.processes, p);
    forall q ensures HoldsOk(t.lock, t.processes, q) { assert HoldsOk(s.lock, s.processes, q); }
  }

  lemma AttachLogStep(s: State, p: nat)
    requires Attached(s) && Enabled(s, Advance(p)) && IsLog(s.processes[p])
    ensures Attached(Step(s, p))
  {
    var t := Step(s, p);
    assert AttachingOk(s.life, s.drainer, s.processes, p);
    forall q ensures AttachingOk(t.life, t.drainer, t.processes, q) {
      assert AttachingOk(s.life, s.drainer, s.processes, q);
    }
  }

  lemma AttachAttachStep(s: State, p: nat)
    requires Attached(s) && Enabled(s, Advance(p)) && IsAttach(s.processes[p])
    ensures Attached(Step(s, p))
  {
    var t := Step(s, p);
    assert AttachingOk(s.life, s.drainer, s.processes, p);
    forall q ensures AttachingOk(t.life, t.drainer, t.processes, q) {
      assert AttachingOk(s.life, s.drainer, s.processes, q);
    }
  }

  lemma AttachCloseStep(s: State, p: nat)
    requires Attached(s) && Enabled(s, Advance(p)) && !IsLog(s.processes[p]) && !IsAttach(s.processes[p])
    ensures Attached(Step(s, p))
  {
    var t := Step(s, p);
    assert AttachingOk(s.life, s.drainer, s.processes, p);
    forall q ensures AttachingOk(t.life, t.drainer, t.processes, q) {
      assert AttachingOk(s.life, s.drainer, s.processes, q);
    }
  }

  lemma CloseLogStep(s: State, p: nat)
    requires Locked(s) && Closes(s) && Enabled(s, Advance(p)) && IsLog(s.processes[p])
    ensures Closes(Step(s, p)) && Step(s, p).panicked == s.panicked
  {
    var t := Step(s, p);
    assert HoldsOk(s.lock, s.processes, p) && ClosingOk(s.life, s.processes, p);
    forall q ensures ClosingOk(t.life, t.processes, q) {
      assert HoldsOk(s.lock, s.processes, q) && ClosingOk(s.life, s.processes, q);
    }
  }

  lemma CloseAttachStep(s: State, p: nat)
    requires Locked(s) && Closes(s) && Enabled(s, Advance(p)) && IsAttach(s.processes[p])
    ensures Closes(Step(s, p)) && Step(s, p).panicked == s.panicked
  {
    var t := Step(s, p);
    assert HoldsOk(s.lock, s.processes, p) && ClosingOk(s.life, s.processes, p);
    forall q ensures ClosingOk(t.life, t.processes, q) {
      assert HoldsOk(s.lock, s.processes, q) && ClosingOk(s.life, s.processes, q);
    }
  }

  lemma CloseCloseStep(s: State, p: nat)
    requires Locked(s) && Closes(s) && Enabled(s, Advance(p)) && !IsLog(s.processes[p]) && !IsAttach(s.processes[p])
    ensures Closes(Step(s, p)) && Step(s, p).panicked == s.panicked
  {
    var t := Step(s, p);
    assert HoldsOk(s.lock, s.processes, p) && ClosingOk(s.life, s.processes, p);
    forall q ensures ClosingOk(t.life, t.processes, q) {
      assert HoldsOk(s.lock, s.processes, q) && ClosingOk(s.life, s.processes, q);
    }
  }

  // --- the queue ---

  function InHand(d: Drainer): seq<Entry> {
    match d
    case Taken(e) => [e]
    case ReadingDb(e) => [e]
    case Writing(e) => [e]
    case _ => []
  }

  /** First in, first out, through one drainer; once it has exited nothing is left. */
  ghost predicate QueueOk(j: Journal, life: Life, drainer: Drainer) {
    && |j.queue| <= QUEUE_SIZE
    && j.accepted == j.taken + j.queue
    && j.taken == j.handled + InHand(drainer)
    && (drainer.Exited? ==> life.queueClosed && j.queue == [])
  }

  ghost predicate Queued(s: State) {
    QueueOk(s.journal, s.life, s.drainer)
  }

  lemma QueueStep(s: State, p: nat)
    requires Queued(s) && Attached(s) && Enabled(s, Advance(p))
    ensures Queued(Step(s, p))
  {
    assert AttachingOk(s.life, s.drainer, s.processes, p);
  }

  // --- every entry is accounted for once ---

  ghost predicate Waiting(processes: map<nat, Process>, id: nat) {
    id in processes && (IsLog(processes[id]) && !processes[id].Leaving?)
  }

  ghost predicate Took(accepted: seq<Entry>, id: nat) {
    exists i :: 0 <= i < |accepted| && accepted[i].id == id
  }

  /** Of a logged entry exactly one holds: its call is still running, it was accepted, it was dropped. */
  ghost predicate Accounted(j: Journal, processes: map<nat, Process>, id: nat) {
    && (Waiting(processes, id) ==> !Took(j.accepted, id) && id !in j.lost && processes[id].entry.id == id)
    && (Took(j.accepted, id) ==> id !in j.lost)
    && (id in j.logged <==> Waiting(processes, id) || Took(j.accepted, id) || id in j.lost)
  }

  ghost predicate TallyOk(j: Journal, processes: map<nat, Process>, next: nat) {
    && j.dropped == |j.lost|
    && (forall i, k :: 0 <= i < k < |j.accepted| ==> j.accepted[i].id != j.accepted[k].id)
    && (forall id {:trigger Accounted(j, processes, id)} :: Accounted(j, processes, id))
    && (forall id :: id in j.logged ==> id < next)
    && (forall p :: p in processes ==> p < next)
  }

  ghost predicate Tallied(s: State) {
    TallyOk(s.journal, s.processes, s.next)
  }

  lemma TookOneMore(accepted: seq<Entry>, e: Entry, id: nat)
    ensures Took(accepted + [e], id) <==> Took(accepted, id) || id == e.id
  {
    if i :| 0 <= i < |accepted| && accepted[i].id == id {
      assert (accepted + [e])[i].id == id;
    }
    assert (accepted + [e])[|accepted|] == e;
  }

  lemma TallyLogStep(s: State, p: nat)
    requires Tallied(s) && Enabled(s, Advance(p)) && IsLog(s.processes[p])
    ensures Tallied(Step(s, p))
  {
    assert Accounted(s.journal, s.processes, p);
    forall id ensures Accounted(Step(s, p).journal, Step(s, p).processes, id) { LogStepAccounts(s, p, id); }
  }

  lemma MovedAccounts(j: Journal, processes: map<nat, Process>, p: nat, proc: Process, id: nat)
    requires Accounted(j, processes, id) && Waiting(processes, p)
    requires IsLog(proc) && !proc.Leaving? && proc.entry == processes[p].entry
    ensures Accounted(j, processes[p := proc], id)
  {
  }

  lemma AcceptedAccounts(j: Journal, processes: map<nat, Process>, p: nat, id: nat)
    requires Accounted(j, processes, id) && Accounted(j, processes, p) && Waiting(processes, p)
    ensures var e := processes[p].entry;
            Accounted(j.(queue := j.queue + [e], accepted := j.accepted + [e]), processes[p := Leaving], id)
  {
    TookOneMore(j.accepted, processes[p].entry, id);
  }

  lemma DroppedAccounts(j: Journal, processes: map<nat, Process>, p: nat, id: nat)
    requires Accounted(j, processes, id) && Accounted(j, processes, p) && Waiting(processes, p)
    ensures var e := processes[p].entry;
            Accounted(j.(dropped := j.dropped + 1, lost := j.lost + {e.id}), processes[p := Leaving], id)
  {
  }

  lemma LeftAccounts(j: Journal, processes: map<nat, Process>, p: nat, id: nat)
    requires Accounted(j, processes, id) && p in processes && processes[p].Leaving?
    ensures Accounted(j, processes - {p}, id)
  {
  }

  lemma LogStepAccounts(s: State, p: nat, id: nat)
    requires Tallied(s) && Enabled(s, Advance(p)) && IsLog(s.processes[p])
    ensures Accounted(Step(s, p).journal, Step(s, p).processes, id)
  {
    var j, ps := s.journal, s.processes;
    assert Accounted(j, ps, p) && Accounted(j, ps, id);
    match ps[p]
    case WantRead(e) =>
      MovedAccounts(j, ps, p, Looking(e), id);
    case Looking(e) =>
      MovedAccounts(j, ps, p, if s.life.closed then Dropping(e) else Sending(e), id);
    case Sending(e) =>
      AcceptedAccounts(j, ps, p, id);
      MovedAccounts(j, ps, p, Dropping(e), id);
    case Dropping(e) =>
      DroppedAccounts(j, ps, p, id);
    case Leaving =>
      LeftAccounts(j, ps, p, id);
    case _ =>
  }

  lemma TallyOtherStep(s: State, p: nat)
    requires Tallied(s) && Enabled(s, Advance(p)) && !IsLog(s.processes[p])
    ensures Tallied(Step(s, p))
  {
    var t := Step(s, p);
    assert t.journal == s.journal;
    forall id ensures Accounted(t.journal, t.processes, id) {
      assert Accounted(s.journal, s.processes, id);
    }
  }

  // --- every run ---

  ghost predicate Inv(s: State) {
    !s.panicked && Locked(s) && Attached(s) && Closes(s) && Queued(s) && Tallied(s)
  }

  lemma AdvanceKeeps(s: State, p: nat)
    requires Inv(s) && Enabled(s, Advance(p))
    ensures Inv(Step(s, p))
  {
    QueueStep(s, p);
    if IsLog(s.processes[p]) {
      LockLogStep(s, p);
      AttachLogStep(s, p);
      CloseLogStep(s, p);
      TallyLogStep(s, p);
    } else {
      TallyOtherStep(s, p);
      if IsAttach(s.processes[p]) {
        LockAttachStep(s, p);
        AttachAttachStep(s, p);
        CloseAttachStep(s, p);
      } else {
        LockCloseStep(s, p);
        AttachCloseStep(s, p);
        CloseCloseStep(s, p);
      }
    }
  }

  lemma DrainKeeps(s: State)
    requires Inv(s) && Enabled(s, Drain)
    ensures Inv(DrainStep(s))
  {
    var t := DrainStep(s);
    forall q ensures HoldsOk(t.lock, t.processes, q) { assert HoldsOk(s.lock, s.processes, q); }
    forall q ensures AttachingOk(t.life, t.drainer, t.processes, q) {
      assert AttachingOk(s.life, s.drainer, s.processes, q);
    }
    forall id ensures Accounted(t.journal, t.processes, id) { assert Accounted(s.journal, s.processes, id); }
  }

  /** A call begins or a waiting Close gives up. */
  lemma CallKeeps(s: State, e: Event)
    requires Inv(s) && Enabled(s, e) && !e.Advance? && !e.Drain?
    ensures Inv(Apply(s, e))
  {
    var t := Apply(s, e);
    assert HoldsOk(s.lock, s.processes, s.next) && Accounted(s.journal, s.processes, s.next);
    assert AttachingOk(s.life, s.drainer, s.processes, s.next) && ClosingOk(s.life, s.processes, s.next);
    forall q ensures HoldsOk(t.lock, t.processes, q) { assert HoldsOk(s.lock, s.processes, q); }
    forall q ensures AttachingOk(t.life, t.drainer, t.processes, q) {
      assert AttachingOk(s.life, s.drainer, s.processes, q);
    }
    forall q ensures ClosingOk(t.life, t.processes, q) { assert ClosingOk(s.life, s.processes, q); }
    forall id ensures Accounted(t.journal, t.processes, id) { assert Accounted(s.journal, s.processes, id); }
  }

  ghost predicate StepAt(tr: seq<State>, ev: seq<Event>, i: nat)
    requires i < |ev| && |tr| == |ev| + 1
  {
    Enabled(tr[i], ev[i]) && tr[i + 1] == Apply(tr[i], ev[i])
  }

  ghost predicate Behaviour(tr: seq<State>, ev: seq<Event>) {
    && |tr| == |ev| + 1 && tr[0] == Initial()
    && forall i {:trigger StepAt(tr, ev, i)} :: 0 <= i < |ev| ==> StepAt(tr, ev, i)
  }

  lemma {:induction false} InvAlways(tr: seq<State>, ev: seq<Event>, i: nat)
    requires Behaviour(tr, ev) && i < |tr|
    ensures Inv(tr[i])
  {
    if i == 0 {
      var s := Initial();
      forall id ensures Accounted(s.journal, s.processes, id) {}
    } else {
      InvAlways(tr, ev, i - 1);
      assert StepAt(tr, ev, i - 1);
      var s, e := tr[i - 1], ev[i - 1];
      if e.Advance? { AdvanceKeeps(s, e.p); } else if e.Drain? { DrainKeeps(s); } else { CallKeeps(s, e); }
    }
  }

  /** No run sends on the closed queue or closes it twice. */
  lemma NeverPanics(tr: seq<State>, ev: seq<Event>, i: nat)
    requires Behaviour(tr, ev) && i < |tr|
    ensures !tr[i].panicked
  {
    InvAlways(tr, ev, i);
  }

  /** The calls that have neither been accepted nor dropped yet. */
  ghost function WaitingIds(s: State): set<nat> {
    set id | id in s.processes && Waiting(s.processes, id)
  }

  function Ids(entries: seq<Entry>): set<nat> {
    set i | 0 <= i < |entries| :: entries[i].id
  }

  lemma {:induction false} IdsCount(entries: seq<Entry>)
    requires forall i, k :: 0 <= i < k < |entries| ==> entries[i].id != entries[k].id
    ensures |Ids(entries)| == |entries|
  {
    if entries != [] {
      var n := |entries| - 1;
      IdsCount(entries[..n]);
      assert entries[n].id !in Ids(entries[..n]);
      assert Ids(entries) == Ids(entries[..n]) + {entries[n].id};
    }
  }

  /** Every Warn and Error is accepted or counted as dropped, once: the counts add up at any moment. */
  lemma Conservation(tr: seq<State>, ev: seq<Event>, i: nat)
    requires Behaviour(tr, ev) && i < |tr|
    ensures var s := tr[i]; |s.journal.logged| == |s.journal.accepted| + s.journal.dropped + |WaitingIds(s)|
  {
    InvAlways(tr, ev, i);
    var s := tr[i];
    var j := s.journal;
    IdsCount(j.accepted);
    forall id: nat ensures id in j.logged <==> id in Ids(j.accepted) + j.lost + WaitingIds(s) {
      assert Accounted(j, s.processes, id);
    }
    forall id: nat
      ensures !(id in Ids(j.accepted) && id in j.lost) && !(id in Ids(j.accepted) + j.lost && id in WaitingIds(s))
    {
      assert Accounted(j, s.processes, id);
    }
    assert j.logged == Ids(j.accepted) + j.lost + WaitingIds(s);
    assert Ids(j.accepted) !! j.lost && (Ids(j.accepted) + j.lost) !! WaitingIds(s);
  }

  /** The drainer takes entries in the order they were accepted; it misses and repeats none. */
  lemma FirstInFirstOut(tr: seq<State>, ev: seq<Event>, i: nat)
    requires Behaviour(tr, ev) && i < |tr|
    ensures var j := tr[i].journal; j.accepted == j.taken + j.queue && j.handled <= j.taken <= j.accepted
    ensures |tr[i].journal.taken| <= |tr[i].journal.handled| + 1
  {
    InvAlways(tr, ev, i);
  }

  /** Once done is closed every accepted entry has been taken and dealt with, and nothing more is ever accepted. */
  lemma {:induction false} DoneMeansDrained(tr: seq<State>, ev: seq<Event>, i: nat, k: nat)
    requires Behaviour(tr, ev) && i <= k < |tr| && tr[i].drainer.Exited?
    ensures tr[k].drainer.Exited?
    ensures tr[k].journal.accepted == tr[k].journal.handled == tr[i].journal.accepted
    decreases k
  {
    if i < k {
      DoneMeansDrained(tr, ev, i, k - 1);
      InvAlways(tr, ev, k - 1);
      assert StepAt(tr, ev, k - 1);
      AfterDone(tr[k - 1], ev[k - 1]);
    } else {
      InvAlways(tr, ev, k);
    }
  }

  lemma AfterDone(s: State, e: Event)
    requires Inv(s) && Enabled(s, e) && s.drainer.Exited?
    ensures Apply(s, e).drainer.Exited?
    ensures Apply(s, e).journal.accepted == s.journal.accepted && Apply(s, e).journal.handled == s.journal.handled
  {
    if e.Advance? {
      assert ClosingOk(s.life, s.processes, e.p) && AttachingOk(s.life, s.drainer, s.processes, e.p);
    }
  }

  /** A Close that waited for done returns with every accepted entry dealt with. */
  lemma CloseReturnsDrained(tr: seq<State>, ev: seq<Event>, i: nat, p: nat)
    requires Behaviour(tr, ev) && i < |ev| && ev[i] == Advance(p)
    requires p in tr[i].processes && tr[i].processes[p].CloseWait?
    ensures tr[i].journal.handled == tr[i].journal.accepted
  {
    assert StepAt(tr, ev, i);
    DoneMeansDrained(tr, ev, i, i);
  }

  // --- why an entry is lost ---

  /** The call of this entry found the logger closed, or the queue full with 1024 entries. */
  ghost predicate Refused(s: State, e: Event, p: nat) {
    && e == Advance(p) && p in s.processes
    && ((s.processes[p].Looking? && s.life.closed) || (s.processes[p].Sending? && |s.journal.queue| == 1024))
  }

  lemma DroppingStep(s: State, e: Event, p: nat)
    requires Inv(s) && Enabled(s, e) && p in Apply(s, e).processes && Apply(s, e).processes[p].Dropping?
    ensures Refused(s, e, p) || (p in s.processes && s.processes[p].Dropping?)
  {
  }

  lemma {:induction false} DroppingBecause(tr: seq<State>, ev: seq<Event>, i: nat, p: nat) returns (k: nat)
    requires Behaviour(tr, ev) && i < |tr| && p in tr[i].processes && tr[i].processes[p].Dropping?
    ensures k < i && Refused(tr[k], ev[k], p)
  {
    assert i > 0 && StepAt(tr, ev, i - 1);
    InvAlways(tr, ev, i - 1);
    DroppingStep(tr[i - 1], ev[i - 1], p);
    if Refused(tr[i - 1], ev[i - 1], p) {
      k := i - 1;
    } else {
      k := DroppingBecause(tr, ev, i - 1, p);
    }
  }

  lemma LostStep(s: State, e: Event, id: nat)
    requires Inv(s) && Enabled(s, e) && id in Apply(s, e).journal.lost && id !in s.journal.lost
    ensures id in s.processes && s.processes[id].Dropping?
  {
    if e.Advance? { assert Accounted(s.journal, s.processes, e.p); }
  }

  /** No entry is lost but to a closed logger or a full queue. */
  lemma {:induction false} LostBecause(tr: seq<State>, ev: seq<Event>, i: nat, id: nat) returns (k: nat)
    requires Behaviour(tr, ev) && i < |tr| && id in tr[i].journal.lost
    ensures k < i && Refused(tr[k], ev[k], id)
  {
    assert i > 0 && StepAt(tr, ev, i - 1);
    InvAlways(tr, ev, i - 1);
    if id in tr[i - 1].journal.lost {
      k := LostBecause(tr, ev, i - 1, id);
    } else {
      LostStep(tr[i - 1], ev[i - 1], id);
      k := DroppingBecause(tr, ev, i - 1, id);
    }
  }

  /** A call that found the logger open and comes to a queue with room has its entry accepted, as the last one. */
  lemma RoomAccepts(tr: seq<State>, ev: seq<Event>, i: nat, p: nat)
    requires Behaviour(tr, ev) && i < |ev| && ev[i] == Advance(p)
    requires p in tr[i].processes && tr[i].processes[p].Sending? && |tr[i].journal.queue| < 1024
    ensures tr[i + 1].journal.accepted == tr[i].journal.accepted + [tr[i].processes[p].entry]
    ensures tr[i + 1].journal.queue == tr[i].journal.queue + [tr[i].processes[p].entry]
    ensures tr[i + 1].journal.lost == tr[i].journal.lost
  {
    assert StepAt(tr, ev, i);
    NeverPanics(tr, ev, i + 1);
  }

  // --- the drainer gets to the end ---

  function DrainTimes(s: State, n: nat): State
    decreases n
  {
    if n == 0 then s else DrainTimes(DrainStep(s), n - 1)
  }

  /** The drainer can take n steps in a row. */
  ghost predicate CanDrain(s: State, n: nat)
    decreases n
  {
    n == 0 || (Enabled(s, Drain) && CanDrain(DrainStep(s), n - 1))
  }

  /** Steps left for the entry in hand. */
  function Left(d: Drainer): nat {
    match d
    case Taken(_) => 3
    case ReadingDb(_) => 2
    case Writing(_) => 1
    case _ => 0
  }

  /**
  Once the queue is closed and the lock is not held for writing, a drainer that
  was started exits after at most four steps an entry, with every accepted entry
  dealt with; no other step is needed.
  */
  lemma {:induction false} DrainsToTheEnd(s: State) returns (n: nat)
    requires Inv(s) && s.life.queueClosed && !s.drainer.NotStarted? && s.lock.writer.None?
    ensures CanDrain(s, n) && n <= 4 * |s.journal.queue| + Left(s.drainer) + 1
    ensures var t := DrainTimes(s, n);
            t.drainer.Exited? && t.journal.handled == t.journal.accepted == s.journal.accepted
    decreases 4 * |s.journal.queue| + Left(s.drainer), if s.drainer.Exited? then 0 else 1
  {
    if s.drainer.Exited? {
      n := 0;
    } else {
      assert Enabled(s, Drain);
      DrainKeeps(s);
      var m := DrainsToTheEnd(DrainStep(s));
      n := m + 1;
    }
  }
}
