/**
 The guard of function-local statics: a lock shared by all cores that its owner may take again,
 with an unlocked look at the guard object first. Every access to a shared word is a step of its
 own; the cores' steps interleave in any way.
 */
module CxaGuard {
  import opened Basics

  type Guard = nat

  /** Where one core stands in __cxa_guard_acquire or __cxa_guard_release. A core that is Running
      executes other code, which is the constructor on top of its stack if there is one. */
  datatype Pc =
    | Running
    | Look(g: Guard)                             // unlocked read of HAS_RUN
    | Spin(g: Guard)                             // compare and exchange of the lock word
    | IncLoad(g: Guard)                          // s_nGuardAcquireCount++ reads
    | IncStore(g: Guard, v: int)                 // and writes
    | LookAgain(g: Guard)                        // read of HAS_RUN with the lock
    | Probe(g: Guard)                            // the assertion reads IN_USE
    | Mark(g: Guard)                             // IN_USE := 1
    | SetRun                                     // HAS_RUN := 1 for the finished constructor
    | DecLoad(skip: Option<Guard>)               // --s_nGuardAcquireCount reads
    | DecStore(v: int, skip: Option<Guard>)      // and writes
    | Unlock(skip: Option<Guard>)                // the lock word is set to LOCK_FREE
    | Halted(g: Guard)                           // the IN_USE assertion failed

  /** The words all cores share. A guard object is in a set when that byte of it is not zero. */
  datatype Shared = Shared(guardCore: nat, count: int, hasRun: set<Guard>, inUse: set<Guard>)

  /** `stack[c]` is the constructors core `c` is inside of, outermost first. The histories record,
      in order, the constructors started, those finished, and the objects of calls that returned 0. */
  datatype State = State(
    mem: Shared, pc: seq<Pc>, stack: seq<seq<Guard>>,
    started: seq<Guard>, finished: set<Guard>, skipped: seq<Guard>)

  datatype Event =
    | Call(core: nat, g: Guard)   // the core calls __cxa_guard_acquire
    | Finish(core: nat)           // its constructor ends: it calls __cxa_guard_release
    | Step(core: nat)             // its next access to a shared word

  /** The word that says nobody owns the lock is the number of cores. */
  function Initial(cores: nat): State {
    State(Shared(cores, 0, {}, {}), seq(cores, _ => Running), seq(cores, _ => []), [], {}, [])
  }

  predicate Enabled(s: State, e: Event)
    requires Shape(s)
  {
    e.core < |s.pc| &&
    match e
    case Call(c, g) => s.pc[c].Running?
    case Finish(c) => s.pc[c].Running? && s.stack[c] != []
    case Step(c) => !s.pc[c].Running? && !s.pc[c].Halted?
  }

  predicate Shape(s: State) {
    |s.stack| == |s.pc| && s.mem.guardCore <= |s.pc|
  }

  function At(s: State, c: nat, pc: Pc): State
    requires Shape(s) && c < |s.pc|
  {
    s.(pc := s.pc[c := pc])
  }

  function Top(stack: seq<Guard>): Guard
    requires stack != []
  {
    stack[|stack| - 1]
  }

  /** The call ends: a call that took the early way out returns 0. */
  function Return(s: State, c: nat, skip: Option<Guard>): State
    requires Shape(s) && c < |s.pc|
  {
    At(if skip.Some? then s.(skipped := s.skipped + [skip.value]) else s, c, Running)
  }

  function Apply(s: State, e: Event): State
    requires Shape(s) && Enabled(s, e)
  {
    match e
    case Call(c, g) => At(s, c, Look(g))
    case Finish(c) => At(s, c, SetRun).(finished := s.finished + {Top(s.stack[c])})
    case Step(c) => Next(s, c)
  }

  function Next(s: State, c: nat): State
    requires Shape(s) && Enabled(s, Step(c))
  {
    var m := s.mem;
    match s.pc[c]
    case Look(g) => if g in m.hasRun then Return(s, c, Some(g)) else At(s, c, Spin(g))
    case Spin(g) =>
      if m.guardCore == |s.pc| then At(s, c, IncLoad(g)).(mem := m.(guardCore := c))
      else if m.guardCore == c then At(s, c, IncLoad(g))
      else s
    case IncLoad(g) => At(s, c, IncStore(g, m.count))
    case IncStore(g, v) => At(s, c, LookAgain(g)).(mem := m.(count := v + 1))
    case LookAgain(g) => At(s, c, if g in m.hasRun then DecLoad(Some(g)) else Probe(g))
    case Probe(g) => At(s, c, if g in m.inUse then Halted(g) else Mark(g))
    case Mark(g) =>
      At(s, c, Running).(mem := m.(inUse := m.inUse + {g}),
                         stack := s.stack[c := s.stack[c] + [g]], started := s.started + [g])
    case SetRun =>
      if s.stack[c] == [] then s
      else
        At(s, c, DecLoad(None)).(mem := m.(hasRun := m.hasRun + {Top(s.stack[c])}),
                                 stack := s.stack[c := s.stack[c][..|s.stack[c]| - 1]])
    case DecLoad(skip) => At(s, c, DecStore(m.count, skip))
    case DecStore(v, skip) =>
      var s' := s.(mem := m.(count := v - 1));
      if v - 1 == 0 then At(s', c, Unlock(skip)) else Return(s', c, skip)
    case Unlock(skip) => Return(s.(mem := m.(guardCore := |s.pc|)), c, skip)
  }

  // ---------------------------------------------------------------- the invariant

  /** How many acquisitions a core holds that are counted already. */
  function Depth(pc: Pc, stack: seq<Guard>): nat {
    if pc.LookAgain? || pc.Probe? || pc.Mark? || pc.DecLoad? || pc.DecStore? || pc.Halted?
    then |stack| + 1
    else |stack|
  }

  /** Owns the lock although nothing is counted: just taken, or about to be given back. */
  predicate InWindow(pc: Pc) {
    pc.IncLoad? || pc.IncStore? || pc.Unlock?
  }

  /** A core is inside when it holds an acquisition, or is about to count or uncount one. */
  predicate Inside(s: State, c: nat)
    requires Shape(s) && c < |s.pc|
  {
    Depth(s.pc[c], s.stack[c]) > 0 || InWindow(s.pc[c])
  }

  /** What the owner knows, by where it stands. */
  predicate OwnerOk(m: Shared, pc: Pc, stack: seq<Guard>, finished: set<Guard>) {
    && m.count == Depth(pc, stack)
    && match pc
       case Running => stack != []
       case Look(g) => stack != []
       case Spin(g) => stack != []
       case IncLoad(g) => true
       case IncStore(g, v) => v == |stack|
       case LookAgain(g) => true
       case Probe(g) => g !in m.hasRun
       case Mark(g) => g !in m.hasRun && g !in m.inUse
       case SetRun => stack != [] && Top(stack) in finished
       case DecLoad(skip) => skip.Some? ==> skip.value in finished
       case DecStore(v, skip) => v == |stack| + 1 && (skip.Some? ==> skip.value in finished)
       case Unlock(skip) => stack == [] && (skip.Some? ==> skip.value in finished)
       case Halted(g) => g in stack
  }

  predicate OutsiderOk(pc: Pc, stack: seq<Guard>) {
    stack == [] && (pc.Running? || pc.Look? || pc.Spin?)
  }

  ghost predicate LockOk(s: State)
    requires Shape(s)
  {
    && (forall c :: 0 <= c < |s.pc| && c != s.mem.guardCore ==> OutsiderOk(s.pc[c], s.stack[c]))
    && (if s.mem.guardCore < |s.pc| then
          OwnerOk(s.mem, s.pc[s.mem.guardCore], s.stack[s.mem.guardCore], s.finished)
        else s.mem.count == 0)
  }

  /** The constructors that are running: the owner's stack. */
  function Active(s: State): seq<Guard>
    requires Shape(s)
  {
    if s.mem.guardCore < |s.pc| then s.stack[s.mem.guardCore] else []
  }

  /** The finished constructor whose HAS_RUN byte is still to be written. */
  predicate Pending(s: State, g: Guard)
    requires Shape(s)
  {
    s.mem.guardCore < |s.pc| && s.pc[s.mem.guardCore].SetRun? && Active(s) != [] && g == Top(Active(s))
  }

  ghost predicate ObjectsOk(s: State)
    requires Shape(s)
  {
    && Distinct(s.started) && Distinct(Active(s))
    && (forall g :: g in s.mem.inUse <==> g in s.started)
    && s.mem.hasRun <= s.finished
    && (forall g :: g in s.finished && g !in s.mem.hasRun ==> Pending(s, g))
    && (forall g :: g in Active(s) <==> g in s.mem.inUse && g !in s.mem.hasRun)
    && s.mem.hasRun <= s.mem.inUse
    && (forall g :: g in s.skipped ==> g in s.finished)
  }

  ghost predicate Inv(s: State) {
    Shape(s) && LockOk(s) && ObjectsOk(s)
  }

  lemma InitialInv(cores: nat)
    ensures Inv(Initial(cores))
  {
  }

  // ---------------------------------------------------------------- every step keeps it

  lemma CallKeeps(s: State, c: nat, g: Guard)
    requires Inv(s) && Enabled(s, Call(c, g))
    ensures Inv(Apply(s, Call(c, g)))
  {
    assert Active(Apply(s, Call(c, g))) == Active(s);
  }

  lemma FinishKeeps(s: State, c: nat)
    requires Inv(s) && Enabled(s, Finish(c))
    ensures Inv(Apply(s, Finish(c)))
  {
    assert c == s.mem.guardCore;
    assert Active(Apply(s, Finish(c))) == Active(s);
  }

  /** Before the lock is taken, the core may be an outsider or nest inside its own constructor. */
  lemma LookKeeps(s: State, c: nat)
    requires Inv(s) && Enabled(s, Step(c)) && (s.pc[c].Look? || s.pc[c].Spin?)
    ensures Inv(Next(s, c))
  {
    assert Active(Next(s, c)) == Active(s);
  }

  lemma CountKeeps(s: State, c: nat)
    requires Inv(s) && Enabled(s, Step(c))
    requires s.pc[c].IncLoad? || s.pc[c].IncStore? || s.pc[c].DecLoad? || s.pc[c].DecStore? || s.pc[c].Unlock?
    ensures Inv(Next(s, c))
  {
    assert c == s.mem.guardCore;
    assert Active(Next(s, c)) == Active(s);
  }

  lemma LockedLookKeeps(s: State, c: nat)
    requires Inv(s) && Enabled(s, Step(c)) && (s.pc[c].LookAgain? || s.pc[c].Probe?)
    ensures Inv(Next(s, c))
  {
    assert c == s.mem.guardCore;
    assert Active(Next(s, c)) == Active(s);
  }

  lemma MarkKeeps(s: State, c: nat)
    requires Inv(s) && Enabled(s, Step(c)) && s.pc[c].Mark?
    ensures Inv(Next(s, c))
  {
    assert c == s.mem.guardCore;
    var s', g := Next(s, c), s.pc[c].g;
    assert Active(s') == Active(s) + [g];
    assert g !in Active(s) && g !in s.started;
  }

  lemma SetRunKeeps(s: State, c: nat)
    requires Inv(s) && Enabled(s, Step(c)) && s.pc[c].SetRun?
    ensures Inv(Next(s, c))
  {
    assert c == s.mem.guardCore;
    SetRunObjects(s, c);
    var s' := Next(s, c);
    hide ObjectsOk, Top;
    assert LockOk(s');
  }

  lemma SetRunObjects(s: State, c: nat)
    requires Inv(s) && s.mem.guardCore == c && Enabled(s, Step(c)) && s.pc[c].SetRun?
    ensures ObjectsOk(Next(s, c))
  {
    var s', q := Next(s, c), s.stack[c];
    var rest, g := q[..|q| - 1], Top(q);
    assert Active(s) == q && Active(s') == rest && s'.mem == s.mem.(hasRun := s.mem.hasRun + {g});
    PopMembers(q);
    hide LockOk, Top;
    assert g in s.mem.inUse && g !in s.mem.hasRun && g in s.finished;
  }

  lemma PopMembers(q: seq<Guard>)
    requires Distinct(q) && q != []
    ensures Distinct(q[..|q| - 1])
    ensures forall g :: g in q[..|q| - 1] <==> g in q && g != Top(q)
    ensures Top(q) in q
  {
    assert q == q[..|q| - 1] + [Top(q)];
  }

  lemma StepKeeps(s: State, e: Event)
    requires Inv(s) && Enabled(s, e)
    ensures Inv(Apply(s, e))
  {
    match e
    case Call(c, g) => CallKeeps(s, c, g);
    case Finish(c) => FinishKeeps(s, c);
    case Step(c) =>
      match s.pc[c]
      case Look(_) => LookKeeps(s, c);
      case Spin(_) => LookKeeps(s, c);
      case LookAgain(_) => LockedLookKeeps(s, c);
      case Probe(_) => LockedLookKeeps(s, c);
      case Mark(_) => MarkKeeps(s, c);
      case SetRun => SetRunKeeps(s, c);
      case _ => CountKeeps(s, c);
  }

  // ---------------------------------------------------------------- what single steps promise

  /** A call that returns 0 does so when the constructor has finished, even by the unlocked look. */
  lemma ZeroMeansFinished(s: State, e: Event)
    requires Inv(s) && Enabled(s, e) && |Apply(s, e).skipped| > |s.skipped|
    ensures e.Step? && Apply(s, e).pc[e.core].Running?
    ensures Apply(s, e).skipped == s.skipped + [Top(Apply(s, e).skipped)]
    ensures Top(Apply(s, e).skipped) in s.finished
  {
    StepKeeps(s, e);
  }

  /** The assertion in __cxa_guard_acquire fails exactly when a constructor needs itself: when the
      object is on the core's own stack. */
  lemma HaltsIffRecursive(s: State, c: nat)
    requires Inv(s) && Enabled(s, Step(c)) && s.pc[c].Probe?
    ensures Next(s, c).pc[c].Halted? <==> s.pc[c].g in s.stack[c]
  {
    assert c == s.mem.guardCore && s.stack[c] == Active(s);
  }

  /** The assertion in GuardRelease always holds. */
  lemma ReleaseIsOwned(s: State, c: nat)
    requires Inv(s) && c < |s.pc| && (s.pc[c].DecLoad? || s.pc[c].DecStore?)
    ensures s.mem.guardCore == c && s.mem.count > 0
    ensures s.pc[c].DecStore? ==> s.pc[c].v == s.mem.count
  {
  }

  /** At most one core is inside, and the count is how deep it is nested; outside the windows the
      owner is exactly the core that is inside. */
  lemma OneOwner(s: State, c: nat)
    requires Inv(s) && c < |s.pc|
    ensures Inside(s, c) <==> s.mem.guardCore == c
    ensures Inside(s, c) ==> s.mem.count == Depth(s.pc[c], s.stack[c])
    ensures Inside(s, c) && !InWindow(s.pc[c]) ==> s.mem.count > 0
    ensures forall d :: 0 <= d < |s.pc| && Inside(s, c) && Inside(s, d) ==> d == c
  {
    forall d | 0 <= d < |s.pc| ensures Inside(s, d) ==> s.mem.guardCore == d {
      assert s.mem.guardCore != d ==> OutsiderOk(s.pc[d], s.stack[d]);
    }
  }

  /** Once an object's constructor has finished, a call of any core for it returns 0 after a single look,
      whoever holds the lock, and leaves everything else as it was; before that it goes for the lock. */
  lemma FinishedNeedsNoLock(s: State, c: nat, g: Guard)
    requires Inv(s) && Enabled(s, Call(c, g))
    ensures var s1 := Apply(s, Call(c, g));
            && Inv(s1) && Enabled(s1, Step(c))
            && Apply(s1, Step(c)) == if g in s.mem.hasRun then s.(skipped := s.skipped + [g])
                                     else s.(pc := s.pc[c := Spin(g)])
  {
    StepKeeps(s, Call(c, g));
    assert Shape(s);
    hide Inv;
    assert s.pc[c := Running] == s.pc;
  }

  /** A waiting core can only be kept waiting by another core, and that one is not itself waiting. */
  lemma OwnerNeverWaits(s: State, c: nat)
    requires Inv(s) && c < |s.pc| && s.pc[c].Spin?
    ensures Next(s, c) == s <==> s.mem.guardCore < |s.pc| && s.mem.guardCore != c
    ensures Next(s, c) == s ==>
              var o := s.mem.guardCore;
              s.pc[o].Halted? || s.pc[o].Running? || Next(s, o) != s
  {
    var o := s.mem.guardCore;
    if o < |s.pc| && o != c && s.pc[o].Spin? {
      assert Next(s, o).pc[o] == IncLoad(s.pc[o].g);
    }
  }

  // ---------------------------------------------------------------- every interleaving

  ghost predicate CanRun(s: State, events: seq<Event>)
    requires Inv(s)
    decreases |events|
  {
    events == [] ||
    (Enabled(s, events[0]) && (StepKeeps(s, events[0]); CanRun(Apply(s, events[0]), events[1..])))
  }

  ghost function Run(s: State, events: seq<Event>): State
    requires Inv(s) && CanRun(s, events)
    decreases |events|
  {
    if events == [] then s
    else
      StepKeeps(s, events[0]);
      Run(Apply(s, events[0]), events[1..])
  }

  /** A run is its steps one after another: one step more is one step from where the run has led. */
  lemma {:induction false} RunGoesOn(s: State, events: seq<Event>, e: Event)
    requires Inv(s) && CanRun(s, events) && Inv(Run(s, events))
    ensures CanRun(s, events + [e]) <==> Enabled(Run(s, events), e)
    ensures CanRun(s, events + [e]) ==> Run(s, events + [e]) == Apply(Run(s, events), e)
    decreases |events|
  {
    assert Shape(s);
    hide Inv, Apply, Enabled;
    if events == [] {
      assert events + [e] == [e] && [e][1..] == [];
    } else {
      assert (events + [e])[0] == events[0] && (events + [e])[1..] == events[1..] + [e];
      StepKeeps(s, events[0]);
      RunGoesOn(Apply(s, events[0]), events[1..], e);
    }
  }

  /** Histories only grow, and HAS_RUN is never taken back. */
  predicate Extends(s: State, s': State) {
    && |s'.pc| == |s.pc| && s.started <= s'.started && s.skipped <= s'.skipped
    && s.finished <= s'.finished && s.mem.hasRun <= s'.mem.hasRun
  }

  lemma StepExtends(s: State, e: Event)
    requires Inv(s) && Enabled(s, e)
    ensures Extends(s, Apply(s, e))
  {
  }

  lemma {:induction false} RunKeeps(s: State, events: seq<Event>)
    requires Inv(s) && CanRun(s, events)
    ensures Inv(Run(s, events)) && Extends(s, Run(s, events))
    decreases |events|
  {
    if events != [] {
      StepKeeps(s, events[0]);
      StepExtends(s, events[0]);
      hide Inv, Apply, Enabled;
      RunKeeps(Apply(s, events[0]), events[1..]);
    }
  }

  /** What can happen from the start on, and where it leads. */
  ghost predicate Possible(cores: nat, events: seq<Event>) {
    InitialInv(cores);
    CanRun(Initial(cores), events)
  }

  ghost function Reached(cores: nat, events: seq<Event>): State
    requires Possible(cores, events)
  {
    InitialInv(cores);
    Run(Initial(cores), events)
  }

  /** Whatever the interleaving: a constructor starts at most once, a call returned 0 only for a
      finished constructor, and at most one core is inside the lock, as deep as the count says. */
  lemma RunIsSafe(cores: nat, events: seq<Event>)
    requires Possible(cores, events)
    ensures var s := Reached(cores, events);
            && |s.pc| == cores && Shape(s) && Distinct(s.started)
            && (forall g :: g in s.skipped ==> g in s.finished && g in s.started)
            && (forall c, d :: 0 <= c < cores && 0 <= d < cores && Inside(s, c) && Inside(s, d) ==> c == d)
            && (forall c :: 0 <= c < cores && Inside(s, c) ==> s.mem.count == Depth(s.pc[c], s.stack[c]))
  {
    InitialInv(cores);
    RunKeeps(Initial(cores), events);
    var s := Reached(cores, events);
    forall c | 0 <= c < cores ensures Inside(s, c) ==> s.mem.guardCore == c && s.mem.count == Depth(s.pc[c], s.stack[c]) {
      OneOwner(s, c);
    }
    forall g | g in s.skipped ensures g in s.started {
      if g !in s.mem.hasRun { assert Pending(s, g) && g in Active(s); }
    }
  }

  // ---------------------------------------------------------------- one core undisturbed

  function Rank(pc: Pc): nat {
    match pc
    case Running => 0 case Halted(_) => 0
    case Unlock(_) => 1 case DecStore(_, _) => 2 case DecLoad(_) => 3
    case SetRun => 4 case Mark(_) => 4 case Probe(_) => 5 case LookAgain(_) => 6
    case IncStore(_, _) => 7 case IncLoad(_) => 8 case Spin(_) => 9 case Look(_) => 10
  }

  /** Steps of core `c` alone up to the end of its call, when nobody else has the lock. */
  ghost function Alone(s: State, c: nat): (s': State)
    requires Inv(s) && c < |s.pc| && (s.mem.guardCore == c || s.mem.guardCore == |s.pc|)
    ensures |s'.pc| == |s.pc|
    decreases if c < |s.pc| then Rank(s.pc[c]) else 0
  {
    if s.pc[c].Running? || s.pc[c].Halted? then s
    else
      StepKeeps(s, Step(c));
      Alone(Next(s, c), c)
  }

  ghost predicate MayCall(s: State, c: nat) {
    Inv(s) && c < |s.pc| && s.pc[c].Running? && (s.mem.guardCore == c || s.mem.guardCore == |s.pc|)
  }

  ghost function FinishAlone(s: State, c: nat): State
    requires MayCall(s, c) && s.stack[c] != []
  {
    FinishKeeps(s, c);
    Alone(Apply(s, Finish(c)), c)
  }

  lemma OneStep(s: State, c: nat)
    requires Inv(s) && c < |s.pc| && (s.mem.guardCore == c || s.mem.guardCore == |s.pc|)
    requires !s.pc[c].Running? && !s.pc[c].Halted?
    ensures Inv(Next(s, c)) && (Next(s, c).mem.guardCore == c || Next(s, c).mem.guardCore == |s.pc|)
    ensures Alone(s, c) == Alone(Next(s, c), c)
  {
    StepKeeps(s, Step(c));
  }

  /** What the core that takes the lock finds. */
  lemma TakenOwner(s: State, c: nat)
    requires Inv(s) && c < |s.pc| && s.pc[c].Spin? && (s.mem.guardCore == c || s.mem.guardCore == |s.pc|)
    ensures s.mem.count == |s.stack[c]| && (s.stack[c] == [] <==> s.mem.guardCore == |s.pc|)
    ensures s.pc[c].g !in s.mem.hasRun ==> (s.pc[c].g in s.stack[c] <==> s.pc[c].g in s.mem.inUse)
  {
    assert s.stack[c] == Active(s);
  }

  /** What is left of a call once the lock is to be had: it returns 0 and changes nothing, it
      fails for an object on the own stack, or it starts the constructor one level deeper. */
  lemma TakenMeans(s: State, c: nat)
    requires Inv(s) && c < |s.pc| && s.pc[c].Spin? && (s.mem.guardCore == c || s.mem.guardCore == |s.pc|)
    ensures var s', g := Alone(s, c), s.pc[c].g;
            if g in s.mem.hasRun then s' == At(s, c, Running).(skipped := s.skipped + [g])
            else if g in s.stack[c] then
              s' == At(s, c, Halted(g)).(mem := s.mem.(guardCore := c, count := s.mem.count + 1))
            else s' == At(s, c, Running).(mem := Shared(c, s.mem.count + 1, s.mem.hasRun, s.mem.inUse + {g}),
                                          stack := s.stack[c := s.stack[c] + [g]], started := s.started + [g])
  {
    TakenOwner(s, c);
    LockIsTaken(s, c);
    hide Inv, Alone;
    if s.pc[c].g in s.mem.hasRun {
      ReturnsZero(Counted(s, c), c);
    } else {
      NotRunYet(Counted(s, c), c);
    }
  }

  lemma NotRunYet(s: State, c: nat)
    requires Inv(s) && c < |s.pc| && s.mem.guardCore == c && s.pc[c].LookAgain? && s.pc[c].g !in s.mem.hasRun
    ensures var s', g := Alone(s, c), s.pc[c].g;
            if g in s.stack[c] then s' == At(s, c, Halted(g))
            else s' == At(s, c, Running).(mem := s.mem.(inUse := s.mem.inUse + {g}),
                                          stack := s.stack[c := s.stack[c] + [g]], started := s.started + [g])
  {
    assert Shape(s);
    hide Inv, Alone;
    OneStep(s, c);
    assert Next(s, c) == At(s, c, Probe(s.pc[c].g));
    hide Next;
    Probed(At(s, c, Probe(s.pc[c].g)), c);
  }

  lemma Probed(s: State, c: nat)
    requires Inv(s) && c < |s.pc| && s.mem.guardCore == c && s.pc[c].Probe? && s.pc[c].g !in s.mem.hasRun
    ensures var s', g := Alone(s, c), s.pc[c].g;
            if g in s.stack[c] then s' == At(s, c, Halted(g))
            else s' == At(s, c, Running).(mem := s.mem.(inUse := s.mem.inUse + {g}),
                                          stack := s.stack[c := s.stack[c] + [g]], started := s.started + [g])
  {
    assert Shape(s);
    hide Inv;
    var g := s.pc[c].g;
    OwnStack(s, c, g);
    OneStep(s, c);
    if g !in s.stack[c] {
      assert Next(s, c) == At(s, c, Mark(g));
      OneStep(At(s, c, Mark(g)), c);
    }
  }

  /** Another core finished the constructor meanwhile. */
  lemma ReturnsZero(s: State, c: nat)
    requires Inv(s) && c < |s.pc| && s.mem.guardCore == c && s.pc[c].LookAgain? && s.pc[c].g in s.mem.hasRun
    ensures Alone(s, c) == At(s, c, Running).(
                             skipped := s.skipped + [s.pc[c].g],
                             mem := s.mem.(guardCore := if s.mem.count == 1 then |s.pc| else c, count := s.mem.count - 1))
  {
    assert Shape(s);
    hide Inv, Alone;
    OneStep(s, c);
    Released(At(s, c, DecLoad(Some(s.pc[c].g))), c);
  }

  lemma OwnStack(s: State, c: nat, g: Guard)
    requires Inv(s) && c < |s.pc| && s.mem.guardCore == c && g !in s.mem.hasRun
    ensures g in s.stack[c] <==> g in s.mem.inUse
  {
    assert Active(s) == s.stack[c];
  }

  /** The lock taken and counted. */
  function Counted(s: State, c: nat): State
    requires Shape(s) && c < |s.pc| && s.pc[c].Spin?
  {
    At(s, c, LookAgain(s.pc[c].g)).(mem := s.mem.(guardCore := c, count := s.mem.count + 1))
  }

  lemma LockIsTaken(s: State, c: nat)
    requires Inv(s) && c < |s.pc| && s.pc[c].Spin? && (s.mem.guardCore == c || s.mem.guardCore == |s.pc|)
    ensures Inv(Counted(s, c)) && Alone(s, c) == Alone(Counted(s, c), c)
  {
    assert Shape(s);
    hide Inv, Alone;
    var s1 := At(s, c, IncLoad(s.pc[c].g)).(mem := s.mem.(guardCore := c));
    OneStep(s, c);
    assert Next(s, c) == s1;
    hide Next;
    CountsUp(s1, c);
    assert s1.pc[c := LookAgain(s.pc[c].g)] == s.pc[c := LookAgain(s.pc[c].g)];
  }

  lemma CountsUp(s: State, c: nat)
    requires Inv(s) && c < |s.pc| && s.mem.guardCore == c && s.pc[c].IncLoad?
    ensures var s' := At(s, c, LookAgain(s.pc[c].g)).(mem := s.mem.(count := s.mem.count + 1));
            Inv(s') && Alone(s, c) == Alone(s', c)
  {
    assert Shape(s);
    hide Inv, Alone;
    OneStep(s, c);
    var s1 := At(s, c, IncStore(s.pc[c].g, s.mem.count));
    assert Next(s, c) == s1;
    OneStep(s1, c);
    assert s1.pc[c := LookAgain(s.pc[c].g)] == s.pc[c := LookAgain(s.pc[c].g)];
  }

  /** And what the end of a constructor amounts to: the lock is free exactly after the outermost. */
  lemma FinishAloneMeans(s: State, c: nat)
    requires MayCall(s, c) && s.stack[c] != []
    ensures var s', g, rest := FinishAlone(s, c), Top(s.stack[c]), s.stack[c][..|s.stack[c]| - 1];
            s' == s.(mem := Shared(if rest == [] then |s.pc| else c, |rest|, s.mem.hasRun + {g}, s.mem.inUse),
                     stack := s.stack[c := rest], finished := s.finished + {g})
  {
    assert Shape(s) && s.mem.guardCore == c && s.mem.count == |s.stack[c]|;
    FinishKeeps(s, c);
    hide Inv;
    var g, rest := Top(s.stack[c]), s.stack[c][..|s.stack[c]| - 1];
    assert s.pc[c := Running] == s.pc;
    var s1 := At(s, c, SetRun).(finished := s.finished + {g});
    OneStep(s1, c);
    var m := s.mem.(hasRun := s.mem.hasRun + {g});
    var s2 := At(s1, c, DecLoad(None)).(mem := m, stack := s.stack[c := rest]);
    assert Next(s1, c) == s2;
    Released(s2, c);
    assert s2.pc[c := Running] == s.pc;
  }

  /** --s_nGuardAcquireCount, and the end of the call. */
  lemma Released(s: State, c: nat)
    requires Inv(s) && c < |s.pc| && s.mem.guardCore == c && s.pc[c].DecLoad?
    ensures var m := s.mem.(guardCore := if s.mem.count == 1 then |s.pc| else c, count := s.mem.count - 1);
            Alone(s, c) == Return(s.(mem := m), c, s.pc[c].skip)
  {
    assert Shape(s);
    hide Inv;
    var skip := s.pc[c].skip;
    OneStep(s, c);
    var s2 := At(s, c, DecStore(s.mem.count, skip));
    assert Next(s, c) == s2;
    OneStep(s2, c);
    if s.mem.count == 1 {
      var s3 := At(s, c, Unlock(skip)).(mem := s.mem.(count := 0));
      assert Next(s2, c) == s3;
      OneStep(s3, c);
    }
  }

  /** The lock and the guard objects in place. The other cores act only between two attempts to
      take the lock: `views` is the memory this core finds at each attempt, the last one succeeds. */
  class Guards {
    const cores: nat
    var guardCore: nat
    var acquireCount: int
    var hasRun: set<Guard>
    var inUse: set<Guard>

    function Mem(): Shared
      reads this
    {
      Shared(guardCore, acquireCount, hasRun, inUse)
    }

    constructor (cores: nat)
      ensures this.cores == cores && Mem() == Initial(cores).mem
    {
      this.cores := cores;
      guardCore, acquireCount, hasRun, inUse := cores, 0, {}, {};
    }

    /** The other cores' steps. */
    method Others(m: Shared)
      modifies this
      ensures Mem() == m
    {
      guardCore, acquireCount, hasRun, inUse := m.guardCore, m.count, m.hasRun, m.inUse;
    }

    method CompareExchange(compare: nat, value: nat) returns (seen: nat)
      modifies this`guardCore
      ensures seen == old(guardCore)
      ensures guardCore == if seen == compare then value else seen
    {
      seen := guardCore;
      if seen == compare { guardCore := value; }
    }

    ghost predicate Attempts(thisCore: nat, views: seq<Shared>) {
      && thisCore < cores && views != []
      && forall i :: 0 <= i < |views| ==>
           ((views[i].guardCore == cores || views[i].guardCore == thisCore) <==> i == |views| - 1)
    }

    method GuardAcquire(thisCore: nat, views: seq<Shared>)
      requires Attempts(thisCore, views)
      modifies this
      ensures var m := views[|views| - 1];
              Mem() == Shared(thisCore, m.count + 1, m.hasRun, m.inUse)
    {
      Others(views[0]);
      var i := 0;
      var seen := CompareExchange(cores, thisCore);
      while seen != cores && seen != thisCore
        invariant i < |views| && seen == views[i].guardCore
        invariant Mem() == views[i].(guardCore := if i == |views| - 1 then thisCore else seen)
        decreases |views| - i
      {
        i := i + 1;
        Others(views[i]);
        seen := CompareExchange(cores, thisCore);
      }
      acquireCount := acquireCount + 1;
    }

    method GuardRelease()
      requires acquireCount > 0
      modifies this`guardCore, this`acquireCount
      ensures acquireCount == old(acquireCount) - 1
      ensures guardCore == if acquireCount == 0 then cores else old(guardCore)
    {
      acquireCount := acquireCount - 1;
      if acquireCount == 0 { guardCore := cores; }
    }

    /** `s` is the state of all cores when the last attempt is made. The result is None when the
        assertion fails. */
    method Acquire(thisCore: nat, g: Guard, views: seq<Shared>, ghost s: State) returns (r: Option<int>)
      requires Attempts(thisCore, views) && Inv(s) && |s.pc| == cores && s.mem == views[|views| - 1]
      requires s.pc[thisCore] == Spin(g)
      modifies this
      ensures g in old(hasRun) ==> r == Some(0) && Mem() == old(Mem())
      ensures g !in old(hasRun) ==>
                var s' := Alone(s, thisCore);
                && Mem() == s'.mem
                && r == (if s'.pc[thisCore] == Halted(g) then None
                         else if s'.skipped == s.skipped + [g] then Some(0) else Some(1))
                && (r == Some(1) ==> s'.started == s.started + [g])
    {
      if g in hasRun { return Some(0); }
      TakenMeans(s, thisCore);
      TakenOwner(s, thisCore);
      hide Inv, Alone;
      GuardAcquire(thisCore, views);
      if g in hasRun {
        GuardRelease();
        return Some(0);
      }
      if g in inUse { return None; }
      inUse := inUse + {g};
      return Some(1);
    }

    method Release(thisCore: nat, g: Guard, ghost s: State)
      requires MayCall(s, thisCore) && |s.pc| == cores && s.mem == Mem()
      requires s.stack[thisCore] != [] && Top(s.stack[thisCore]) == g
      modifies this
      ensures Mem() == FinishAlone(s, thisCore).mem
    {
      FinishAloneMeans(s, thisCore);
      hasRun := hasRun + {g};
      GuardRelease();
    }
  }
}
