/** Control of the lanes that run the tick loop together: where each lane is between barriers, the values it
    keeps to itself, and the memory the lanes share. A barrier lets its lanes go when all of them wait, at
    whatever call each of them waits; that they wait at the same call is what is proved. */
module LaneControl {
  import opened CacheState

  /** The barrier waits of the loop, each named by where it stands; a broadcast has two. */
  datatype Site =
    | Begin
    | LoopTop
    | TasksSent | TasksRead | CountSent | CountRead | Gathered
    | TaskTop(t: nat) | CancelSent(t: nat) | CancelRead(t: nat)
    | WideTop(t: nat, idx: nat) | WideGo(t: nat, idx: nat) | WideDone(t: nat, idx: nat)
    | WideEnd(t: nat, done: nat) | TakeSent(t: nat, done: nat) | TakeRead(t: nat, done: nat)
    | ThinEnd(t: nat, done: nat) | ThinCounted(t: nat, done: nat)
    | TaskEnd(t: nat) | TasksEnd | TickEnd | ExitSent | ExitRead

  /** The eight bytes of broadcast memory; stack addresses of lane 0 are named by what they point at. */
  datatype Mem = Unset | TasksPtr | Count(n: nat) | CancelPtr(t: nat) | TakePtr(t: nat) | ExitFlag(b: bool)

  /** Where a lane is between the barrier it passed and the next one. */
  datatype Pc =
    | Working
    | AfterReset                // lane 0 has reset the loop flag
    | SecondBatch | Sending     // lane 0 has gathered one batch, both batches
    | Resubmitting              // lane 0 has a wide request to queue again
    | Raising                   // something was queued, the loop flag is not raised yet
    | SetCancel | TestCancel | Take
    | Running(j: nat)           // owns thin ticket j
    | Returning(j: nat)         // has thin ticket j to queue again
    | Waiting(next: Site)
    | Exited

  /** `at` is the last barrier passed; the rest are the lane's local variables. */
  datatype Lane = Lane(at: Site, pc: Pc, tasks: Mem, count: nat, cancelPtr: Mem, takePtr: Mem, thinDone: nat,
                       exit: bool)

  /** What became of a gathered request. */
  datatype Fate = Pending | Executed | Deferred

  /** One priority's gathered requests. The fates and the lane that drew each ticket are history. */
  datatype Task = Task(wide: seq<Request>, thin: seq<Request>, wideFate: seq<Fate>, thinFate: seq<Fate>,
                       holder: seq<nat>)

  datatype Control = Control(
    epoch: Site,            // the barrier last released (history)
    lanes: seq<Lane>,
    mem: Mem,
    tasks: seq<Task>,
    cancelled: bool,
    counter: nat,
    exiting: bool)

  const TASKS: nat := 2

  function Repeat<T>(n: nat, x: T): (r: seq<T>)
    ensures |r| == n && forall i | 0 <= i < n :: r[i] == x
  {
    seq(n, _ => x)
  }

  function NewTask(b: Batch): Task {
    Task(b.wide, b.thin, Repeat(|b.wide|, Pending), Repeat(|b.thin|, Pending), Repeat(|b.thin|, 0))
  }

  // ---- the program of a lane ----

  function WideCount(k: Control, t: nat): nat { if t < |k.tasks| then |k.tasks[t].wide| else 0 }

  function ThinCount(k: Control, t: nat): nat { if t < |k.tasks| then |k.tasks[t].thin| else 0 }

  function NextWide(k: Control, t: nat, idx: nat): Site {
    if idx < WideCount(k, t) then WideTop(t, idx) else WideEnd(t, idx)
  }

  /** The barrier lane `l` comes to next, by its own local variables and what it reads in shared memory. */
  function NextSite(k: Control, l: Lane): Site {
    match l.at
    case Begin => LoopTop
    case LoopTop => TasksSent
    case TasksSent => TasksRead
    case TasksRead => CountSent
    case CountSent => CountRead
    case CountRead => Gathered
    case Gathered => if 0 < l.count then TaskTop(0) else TasksEnd
    case TaskTop(t) => CancelSent(t)
    case CancelSent(t) => CancelRead(t)
    case CancelRead(t) => NextWide(k, t, 0)
    case WideTop(t, idx) => WideGo(t, idx)
    case WideGo(t, idx) => if k.cancelled then WideEnd(t, idx) else WideDone(t, idx)
    case WideDone(t, idx) => NextWide(k, t, idx + 1)
    case WideEnd(t, d) => TakeSent(t, d)
    case TakeSent(t, d) => TakeRead(t, d)
    case TakeRead(t, d) => ThinEnd(t, d)
    case ThinEnd(t, d) => ThinCounted(t, d)
    case ThinCounted(t, d) => TaskEnd(t)
    case TaskEnd(t) => if t + 1 < l.count then TaskTop(t + 1) else TasksEnd
    case TasksEnd => TickEnd
    case TickEnd => ExitSent
    case ExitSent => ExitRead
    case ExitRead => LoopTop
  }

  /** Whether lane `i` has nothing left to do before its next barrier but what Arrive does. */
  predicate CanArrive(k: Control, i: nat) {
    && i < |k.lanes|
    && var l := k.lanes[i];
       match l.at
       case Begin => l.pc == Working && i != 0
       case ExitRead => l.pc == Working && i != 0 && !l.exit
       case LoopTop => if i == 0 then l.pc == Sending else l.pc == Working
       case WideGo(_, _) => l.pc == Working && (i != 0 || k.cancelled)
       case TakeRead(_, _) => false
       case ThinCounted(t, _) => l.pc == Working && (i != 0 || t == 0)
       case _ => l.pc == Working
  }

  /** The lane's local variables when it arrives: what it reads from broadcast memory or shared counters. */
  function Locals(k: Control, i: nat, l: Lane): Lane {
    match l.at
    case TasksSent => if i == 0 then l else l.(tasks := k.mem)
    case CountSent => if i != 0 && k.mem.Count? then l.(count := k.mem.n) else l
    case TaskTop(t) => if i == 0 then l.(cancelPtr := CancelPtr(t)) else l
    case CancelSent(t) => if i == 0 then l else l.(cancelPtr := k.mem)
    case WideEnd(t, _) => if i == 0 then l.(takePtr := TakePtr(t)) else l
    case TakeSent(t, _) => if i == 0 then l else l.(takePtr := k.mem)
    case ThinEnd(_, _) => l.(thinDone := k.counter)
    case TickEnd => if i == 0 then l.(exit := k.exiting) else l
    case ExitSent => if i != 0 && k.mem.ExitFlag? then l.(exit := k.mem.b) else l
    case _ => l
  }

  /** Broadcast memory after the arrival: the source lane of a broadcast writes it. */
  function Sent(k: Control, i: nat, l: Lane): Mem {
    if i != 0 then k.mem else
      match l.at
      case LoopTop => l.tasks
      case TasksRead => Count(l.count)
      case TaskTop(t) => CancelPtr(t)
      case WideEnd(t, _) => TakePtr(t)
      case TickEnd => ExitFlag(k.exiting)
      case _ => k.mem
  }

  function CancelledAfter(k: Control, i: nat, l: Lane, high: bool): bool {
    if i != 0 then k.cancelled else
      match l.at
      case TaskTop(_) => false
      case WideTop(t, idx) => k.cancelled || (t == 1 && idx != 0 && high)
      case _ => k.cancelled
  }

  function CounterAfter(k: Control, i: nat, l: Lane): nat {
    if i == 0 && l.at.WideEnd? then 0 else k.counter
  }

  function SetPc(k: Control, i: nat, pc: Pc): Control
    requires i < |k.lanes|
  {
    k.(lanes := k.lanes[i := k.lanes[i].(pc := pc)])
  }

  function SetWideFate(k: Control, t: nat, idx: nat, f: Fate): Control
    requires t < |k.tasks| && idx < |k.tasks[t].wideFate|
  {
    k.(tasks := k.tasks[t := k.tasks[t].(wideFate := k.tasks[t].wideFate[idx := f])])
  }

  function SetThinFate(k: Control, t: nat, j: nat, f: Fate): Control
    requires t < |k.tasks| && j < |k.tasks[t].thinFate|
  {
    k.(tasks := k.tasks[t := k.tasks[t].(thinFate := k.tasks[t].thinFate[j := f])])
  }

  /** Fates after the leftovers from `from` on are deferred. */
  function DeferFrom(fs: seq<Fate>, from: nat): (r: seq<Fate>)
    ensures |r| == |fs|
  {
    seq(|fs|, i requires 0 <= i < |fs| => if i < from then fs[i] else Deferred)
  }

  datatype Act =
    | Arrive(i: nat, high: bool)
    | Release
    | Reset1 | Reset2
    | Gather(batch: Batch)
    | WideFinish | WideRetry | WidePush
    | Raise(i: nat)
    | ThinTop(i: nat, high: bool) | ThinCancel(i: nat) | ThinTest(i: nat) | ThinTake(i: nat)
    | ThinFinish(i: nat) | ThinRetry(i: nat) | ThinPush(i: nat)
    | DeferRest
    | Leave(i: nat)
    | SetExit

  /** Lane 0 is to run wide request `idx` of task `t`. */
  predicate WideTurn(k: Control, pc: Pc) {
    && 0 < |k.lanes| && k.lanes[0].pc == pc && k.lanes[0].at.WideGo?
    && k.lanes[0].at.t < |k.tasks| && k.lanes[0].at.idx < |k.tasks[k.lanes[0].at.t].wide|
    && |k.tasks[k.lanes[0].at.t].wideFate| == |k.tasks[k.lanes[0].at.t].wide|
  }

  /** Lane `i` owns thin ticket `j` of the current task. */
  predicate ThinTurn(k: Control, i: nat, pc: Pc) {
    && i < |k.lanes| && k.lanes[i].pc == pc && (pc.Running? || pc.Returning?) && k.lanes[i].at.TakeRead?
    && k.lanes[i].at.t < |k.tasks| && pc.j < |k.tasks[k.lanes[i].at.t].thin|
    && |k.tasks[k.lanes[i].at.t].thinFate| == |k.tasks[k.lanes[i].at.t].thin|
  }

  predicate InThinLoop(k: Control, i: nat, pc: Pc) {
    i < |k.lanes| && k.lanes[i].at.TakeRead? && k.lanes[i].pc == pc
  }

  predicate CanDefer(k: Control) {
    && 0 < |k.lanes| && k.lanes[0].pc == Working && k.lanes[0].at.ThinCounted? && k.lanes[0].at.t > 0
    && k.lanes[0].at.t < |k.tasks| && k.lanes[0].at.done <= |k.tasks[k.lanes[0].at.t].wide|
  }

  predicate CanAct(k: Control, a: Act) {
    match a
    case Arrive(i, _) => CanArrive(k, i)
    case Release => 0 < |k.lanes| && forall i | 0 <= i < |k.lanes| :: k.lanes[i].pc.Waiting?
    case Reset1 =>
      && 0 < |k.lanes| && k.lanes[0].pc == Working
      && (k.lanes[0].at == Begin || (k.lanes[0].at == ExitRead && !k.lanes[0].exit))
    case Reset2 => 0 < |k.lanes| && k.lanes[0].pc == AfterReset
    case Gather(_) => 0 < |k.lanes| && k.lanes[0].at == LoopTop
      && (k.lanes[0].pc == Working || k.lanes[0].pc == SecondBatch)
    case WideFinish => WideTurn(k, Working) && !k.cancelled
    case WideRetry => WideTurn(k, Working) && !k.cancelled
    case WidePush => WideTurn(k, Resubmitting)
    case Raise(i) => i < |k.lanes| && k.lanes[i].pc == Raising
    case ThinTop(i, _) => InThinLoop(k, i, Working)
    case ThinCancel(i) => InThinLoop(k, i, SetCancel)
    case ThinTest(i) => InThinLoop(k, i, TestCancel)
    case ThinTake(i) => InThinLoop(k, i, Take)
    case ThinFinish(i) => i < |k.lanes| && ThinTurn(k, i, k.lanes[i].pc) && k.lanes[i].pc.Running?
    case ThinRetry(i) => i < |k.lanes| && ThinTurn(k, i, k.lanes[i].pc) && k.lanes[i].pc.Running?
    case ThinPush(i) => i < |k.lanes| && ThinTurn(k, i, k.lanes[i].pc) && k.lanes[i].pc.Returning?
    case DeferRest => CanDefer(k)
    case Leave(i) => i < |k.lanes| && k.lanes[i].pc == Working && k.lanes[i].at == ExitRead && k.lanes[i].exit
    case SetExit => true
  }

  function ArriveDo(k: Control, i: nat, high: bool): Control
    requires CanArrive(k, i)
  {
    var l := k.lanes[i];
    k.(lanes := k.lanes[i := Locals(k, i, l).(pc := Waiting(NextSite(k, l)))],
       mem := Sent(k, i, l),
       cancelled := CancelledAfter(k, i, l, high),
       counter := CounterAfter(k, i, l))
  }

  function Released(l: Lane): Lane
    requires l.pc.Waiting?
  {
    l.(at := l.pc.next, pc := Working)
  }

  function ReleaseDo(k: Control): Control
    requires CanAct(k, Release)
  {
    k.(epoch := k.lanes[0].pc.next,
       lanes := seq(|k.lanes|, i requires 0 <= i < |k.lanes| => Released(k.lanes[i])))
  }

  /** Lane 0 copies one batch out; the address and count of the tasks are its own locals. */
  function GatherDo(k: Control, b: Batch): Control
    requires CanAct(k, Gather(b))
  {
    var l := k.lanes[0];
    if l.pc == Working
    then k.(tasks := [NewTask(b)], lanes := k.lanes[0 := l.(pc := SecondBatch, tasks := TasksPtr, count := TASKS)])
    else k.(tasks := k.tasks + [NewTask(b)], lanes := k.lanes[0 := l.(pc := Sending)])
  }

  function RaiseDo(k: Control, i: nat): Control
    requires CanAct(k, Raise(i))
  {
    SetPc(k, i, match k.lanes[i].at
                case WideGo(t, idx) => Waiting(WideDone(t, idx))
                case ThinCounted(t, _) => Waiting(TaskEnd(t))
                case _ => Working)
  }

  /** Draws the next ticket; a ticket past the end leaves the loop. */
  function TakeDo(k: Control, i: nat): Control
    requires InThinLoop(k, i, Take)
  {
    var t, d, j := k.lanes[i].at.t, k.lanes[i].at.done, k.counter;
    if j < ThinCount(k, t) && j < |k.tasks[t].holder|
    then SetPc(k, i, Running(j)).(counter := j + 1,
                                  tasks := k.tasks[t := k.tasks[t].(holder := k.tasks[t].holder[j := i])])
    else SetPc(k, i, Waiting(ThinEnd(t, d))).(counter := j + 1)
  }

  predicate Unfinished(k: Control, t: nat, done: nat, thinDone: nat) {
    done < WideCount(k, t) || thinDone < ThinCount(k, t)
  }

  function DeferDo(k: Control): Control
    requires CanDefer(k)
  {
    var l := k.lanes[0];
    var t, d := l.at.t, l.at.done;
    var task := k.tasks[t];
    k.(tasks := k.tasks[t :=
                        task.(wideFate := DeferFrom(task.wideFate, d),
                              thinFate := DeferFrom(task.thinFate, l.thinDone))],
       lanes := k.lanes[0 := l.(pc := if Unfinished(k, t, d, l.thinDone) then Raising else Waiting(TaskEnd(t)))])
  }

  function Do(k: Control, a: Act): Control
    requires CanAct(k, a)
  {
    match a
    case Arrive(i, high) => ArriveDo(k, i, high)
    case Release => ReleaseDo(k)
    case Reset1 => SetPc(k, 0, AfterReset)
    case Reset2 => SetPc(k, 0, Waiting(LoopTop))
    case Gather(b) => GatherDo(k, b)
    case WideFinish =>
      var e := k.lanes[0].at;
      SetPc(SetWideFate(k, e.t, e.idx, Executed), 0, Waiting(WideDone(e.t, e.idx)))
    case WideRetry => SetPc(k, 0, Resubmitting)
    case WidePush =>
      var e := k.lanes[0].at;
      SetPc(SetWideFate(k, e.t, e.idx, Executed), 0, Raising)
    case Raise(i) => RaiseDo(k, i)
    case ThinTop(i, high) =>
      var t := k.lanes[i].at.t;
      SetPc(k, i, if t == 1 && k.counter >= ThinCount(k, t) / 2 && high then SetCancel else TestCancel)
    case ThinCancel(i) => SetPc(k, i, TestCancel).(cancelled := true)
    case ThinTest(i) => SetPc(k, i, if k.cancelled then Waiting(ThinEnd(k.lanes[i].at.t, k.lanes[i].at.done)) else Take)
    case ThinTake(i) => TakeDo(k, i)
    case ThinFinish(i) => SetPc(SetThinFate(k, k.lanes[i].at.t, k.lanes[i].pc.j, Executed), i, Working)
    case ThinRetry(i) => SetPc(k, i, Returning(k.lanes[i].pc.j))
    case ThinPush(i) => SetPc(SetThinFate(k, k.lanes[i].at.t, k.lanes[i].pc.j, Executed), i, Raising)
    case DeferRest => DeferDo(k)
    case Leave(i) => SetPc(k, i, Exited)
    case SetExit => k.(exiting := true)
  }
}
