/**
 Tasks and task switching (lethe-kernel/cpu/task.c).  A task is a number, 0 is NULL,
 1 the kernel task.  Every run of create_task and switch_task after the first
 create_task is covered; remove_task and signal_idle are not part of this model.
 */
module Tasks {
  import opened Wrappers
  import opened RingQueue

  /** The registers of isr_stack_t. */
  datatype Frame = Frame(r15: nat, r14: nat, r13: nat, r12: nat, r11: nat, r10: nat, r9: nat, r8: nat, rbp: nat, rdi: nat,
                         rsi: nat, rdx: nat, rcx: nat, rbx: nat, rax: nat, isr: nat, err: nat, rip: nat, cs: nat, rflags: nat)

  /** current, the live queue, the saved frames and TASK_COUNT. */
  datatype State = State(current: nat, queue: seq<nat>, frames: map<nat, Frame>, count: nat)

  /** The frame of a new task; registers that create_task does not set are as found. */
  function NewFrame(found: Frame, id: nat, entry: nat, data: nat, wrapper: nat): Frame {
    found.(rdi := id, rsi := entry, rdx := data, rip := wrapper, rflags := 0x202, isr := 2, err := 0, cs := 0x08)
  }

  /** create_task. */
  function Create(s: State, frame: Frame): State {
    State(s.current, Push(s.queue, s.count + 1), s.frames[s.count + 1 := frame], s.count + 1)
  }

  /** switch_task: the frame that is resumed, or None when there is none to resume. */
  function Switch(s: State, frame: Frame): Option<(State, Frame)> {
    var saved := s.frames[s.current := frame];
    var (next, rest) := Pop(s.queue);
    if next !in saved then None
    else Some((State(next, Push(rest, s.current), saved, s.count), saved[next]))
  }

  // ------------------------------------------------------------------ whole runs

  datatype Event = Created(frame: Frame) | Switched(frame: Frame)

  /** The state after a run and the frames resumed in it. */
  function Run(s: State, events: seq<Event>): Option<(State, seq<Frame>)>
    decreases |events|
  {
    if events == [] then Some((s, []))
    else
      match events[0]
      case Created(frame) => Run(Create(s, frame), events[1..])
      case Switched(frame) =>
        match Switch(s, frame)
        case None => None
        case Some((t, resumed)) =>
          match Run(t, events[1..])
          case None => None
          case Some((u, outs)) => Some((u, [resumed] + outs))
  }

  /** The frames that were suspended in a run. */
  function Suspended(events: seq<Event>): seq<Frame>
    decreases |events|
  {
    if events == [] then []
    else if events[0].Switched? then [events[0].frame] + Suspended(events[1..])
    else Suspended(events[1..])
  }

  /** One task runs and one other is queued. */
  predicate Paired(s: State) {
    && |s.queue| == 1 && 0 < s.current <= s.count && 0 < s.queue[0] <= s.count && s.current != s.queue[0]
    && s.queue[0] in s.frames
  }

  /** After init_tasks the first create_task pairs the kernel with the new task. */
  lemma FirstCreatePairs(s: State, frame: Frame)
    requires s.current == 1 && s.queue == [] && s.count == 1
    ensures Paired(Create(s, frame)) && Create(s, frame).queue == [2] && Create(s, frame).frames[2] == frame
  {
  }

  /** Before it, switching finds no task. */
  lemma SwitchWithoutTask(s: State, frame: Frame)
    requires s.current != 0 && s.queue == [] && 0 !in s.frames
    ensures Switch(s, frame) == None
  {
  }

  lemma SwitchStep(s: State, frame: Frame)
    requires Paired(s)
    ensures Switch(s, frame) ==
            Some((State(s.queue[0], [s.current], s.frames[s.current := frame], s.count), s.frames[s.queue[0]]))
  {
    assert s.queue[1..] == [];
    assert [] + [s.current] == [s.current];
  }

  /** In every run from there: no switch fails, the same two tasks take turns,
      whatever is created, and each switch resumes exactly the frame that was
      suspended by the switch before it. */
  lemma {:induction false} TwoTasksAlternate(s: State, events: seq<Event>)
    requires Paired(s)
    ensures Run(s, events).Some?
    ensures var (t, outs) := Run(s, events).value;
            var ins := Suspended(events);
            && Paired(t) && |outs| == |ins|
            && outs + [t.frames[t.queue[0]]] == [s.frames[s.queue[0]]] + ins
            && (if |ins| % 2 == 0 then t.current == s.current && t.queue == s.queue
                else t.current == s.queue[0] && t.queue == [s.current])
    decreases |events|
  {
    if events != [] {
      match events[0] {
        case Created(frame) => TwoTasksAlternate(Create(s, frame), events[1..]);
        case Switched(frame) =>
          SwitchStep(s, frame);
          var s1 := Switch(s, frame).value.0;
          TwoTasksAlternate(s1, events[1..]);
          var (t, rest) := Run(s1, events[1..]).value;
          Alternates(s.frames[s.queue[0]], frame, rest, t.frames[t.queue[0]], Suspended(events[1..]));
      }
    }
  }

  /** One more switch in front: out goes x, in comes y. */
  lemma Alternates(x: Frame, y: Frame, rest: seq<Frame>, z: Frame, ins: seq<Frame>)
    requires rest + [z] == [y] + ins
    ensures ([x] + rest) + [z] == [x] + ([y] + ins) && |[x] + rest| == |[y] + ins|
    ensures |[y] + ins| % 2 == 0 <==> |ins| % 2 != 0
  {
    assert |rest + [z]| == |[y] + ins|;
    assert ([x] + rest) + [z] == [x] + (rest + [z]);
  }

  /** So a task created after the first is never run. */
  lemma {:induction false} LaterTasksStarve(s: State, events: seq<Event>, task: nat)
    requires Paired(s) && task != s.current && task != s.queue[0]
    ensures Run(s, events).Some? && task != Run(s, events).value.0.current && task !in Run(s, events).value.0.queue
  {
    TwoTasksAlternate(s, events);
  }

  // ------------------------------------------------------------------- the code

  /** Registers in memory: what an interrupt pushed, or what a task keeps. */
  class IsrStack {
    var regs: Frame

    constructor (f: Frame)
      ensures regs == f
    {
      regs := f;
    }
  }

  /** copy_ctx: register by register. */
  method CopyCtx(dest: IsrStack, src: IsrStack)
    modifies dest
    ensures dest.regs == old(src.regs)
  {
    var f, g := dest.regs, src.regs;
    f := f.(r15 := g.r15, r14 := g.r14, r13 := g.r13, r12 := g.r12, r11 := g.r11);
    f := f.(r10 := g.r10, r9 := g.r9, r8 := g.r8, rbp := g.rbp, rdi := g.rdi);
    f := f.(rsi := g.rsi, rdx := g.rdx, rcx := g.rcx, rbx := g.rbx, rax := g.rax);
    f := f.(isr := g.isr, err := g.err, rip := g.rip, cs := g.cs, rflags := g.rflags);
    dest.regs := f;
  }

  class Scheduler {
    var current: nat
    var count: nat
    var stacks: map<nat, IsrStack>
    const live: Queue

    /** Every task has a context of its own. */
    ghost predicate Valid()
      reads this, live
    {
      && live.Valid() && current in stacks && 0 !in stacks && (forall t :: t in stacks ==> t <= count)
      && forall t, u :: t in stacks && u in stacks && t != u ==> stacks[t] != stacks[u]
    }

    ghost function Frames(): map<nat, Frame>
      reads this, stacks.Values
    {
      map t | t in stacks :: stacks[t].regs
    }

    ghost function Abs(): State
      requires Valid()
      reads this, stacks.Values, live, live.inner
    {
      State(current, live.Contents(), Frames(), count)
    }

    /** init_tasks. */
    constructor (found: Frame, idle: nat)
      ensures Valid() && fresh(live) && fresh(live.inner) && (forall t :: t in stacks ==> fresh(stacks[t]))
      ensures Abs() == State(1, [], map[1 := found.(rip := idle, rflags := 0x202, isr := 2, err := 0, cs := 0x08)], 1)
    {
      live := new Queue();
      var ctx := new IsrStack(found.(rip := idle, rflags := 0x202, isr := 2, err := 0, cs := 0x08));
      stacks := map[1 := ctx];
      current, count := 1, 1;
    }

    /** create_task. */
    method CreateTask(found: Frame, entry: nat, data: nat, wrapper: nat)
      requires Valid()
      modifies this, live, live.inner
      ensures Valid() && Abs() == Create(old(Abs()), NewFrame(found, old(count), entry, data, wrapper))
      ensures forall t :: t in stacks ==> (t in old(stacks) && stacks[t] == old(stacks)[t]) || fresh(stacks[t])
    {
      var ctx := new IsrStack(NewFrame(found, count, entry, data, wrapper));
      AddTask(ctx);
    }

    /** Count a task with context ctx, and queue it. */
    method AddTask(ctx: IsrStack)
      requires Valid() && ctx !in stacks.Values
      modifies this, live, live.inner
      ensures Valid() && stacks == old(stacks)[old(count) + 1 := ctx] && Abs() == Create(old(Abs()), ctx.regs)
    {
      ghost var was, frame := Frames(), ctx.regs;
      count := count + 1;
      stacks := stacks[count := ctx];
      assert Frames() == was[count := frame];
      live.PushQueue(count);
      assert Frames() == was[count := frame];
    }

    /** The current task keeps the interrupted registers. */
    method Save(ctx: IsrStack)
      requires Valid() && ctx !in stacks.Values
      modifies stacks[current]
      ensures Valid() && Frames() == old(Frames())[current := ctx.regs]
    {
      ghost var saved := Frames()[current := ctx.regs];
      CopyCtx(stacks[current], ctx);
      assert Frames() == saved;
    }

    /** The next task in the queue becomes current; the queue takes the other. */
    method Rotate()
      requires Valid()
      modifies this, live, live.inner
      ensures live.Valid() && stacks == old(stacks) && count == old(count) && Frames() == old(Frames())
      ensures var (next, rest) := Pop(old(live.Contents()));
              current == next && live.Contents() == Push(rest, old(current))
    {
      var previous := current;
      current := live.PopQueue();
      live.PushQueue(previous);
      assert Frames() == old(Frames());
    }

    /** switch_task on the interrupted registers. */
    method SwitchTask(ctx: IsrStack) returns (ok: bool)
      requires Valid() && ctx !in stacks.Values
      modifies this, live, live.inner, ctx, stacks.Values
      ensures stacks == old(stacks) && ok == Switch(old(Abs()), old(ctx.regs)).Some?
      ensures ok ==> Valid() && Abs() == Switch(old(Abs()), old(ctx.regs)).value.0
      ensures ok ==> ctx.regs == Switch(old(Abs()), old(ctx.regs)).value.1
    {
      Save(ctx);
      Rotate();
      ghost var saved := Frames();
      if current !in stacks { return false; }
      CopyCtx(ctx, stacks[current]);
      assert Frames() == saved;
      ok := true;
    }
  }
}
