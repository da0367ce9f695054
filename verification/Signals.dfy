/** Signal delivery on the way back to user mode, and the return from a handler, over one process. */
module Signals {
  import opened Bits

  const NSIG: nat := 32
  const SIG_DFL: nat := 0
  const SIG_IGN: nat := 1
  const SIGSTACK_SIZE: nat := 8192
  const WORD: nat := 0x1_0000_0000_0000_0000

  /** struct trap_frame. */
  datatype Frame = Frame(ra: nat, sp: nat, gp: nat, tp: nat, t0: nat, t1: nat, t2: nat, s0: nat, s1: nat,
                         a0: nat, a1: nat, a2: nat, a3: nat, a4: nat, a5: nat, a6: nat, a7: nat,
                         s2: nat, s3: nat, s4: nat, s5: nat, s6: nat, s7: nat, s8: nat, s9: nat, s10: nat, s11: nat,
                         t3: nat, t4: nat, t5: nat, t6: nat, sepc: nat, sstatus: nat, scause: nat, stval: nat)

  /**
   * A user process at a trap: its trap frame and its signal state. `sigstack` is 0 when no signal stack
   * is held. `started` lists the signals whose handlers have been entered, with the stack of each.
   */
  datatype Process = Process(tf: Frame, pending: nat, handlers: seq<nat>, inHandler: bool, saved: Frame,
                             sigstack: nat, image: bool, zombie: bool, started: seq<(nat, nat)>)

  function ZeroFrame(): Frame {
    Frame(0, 0, 0, 0, 0, 0, 0, 0, 0, 0, 0, 0, 0, 0, 0, 0, 0, 0, 0, 0, 0, 0, 0, 0, 0, 0, 0, 0, 0, 0, 0, 0, 0, 0, 0)
  }

  function DefaultHandlers(): (h: seq<nat>)
    ensures |h| == NSIG
  {
    seq(NSIG, _ => SIG_DFL)
  }

  /** A new user process: signal_state_init has zeroed the signal state, the trap frame is planted. */
  function Initial(tf: Frame): Process {
    Process(tf, 0, DefaultHandlers(), false, ZeroFrame(), 0, true, false, [])
  }

  // ---- the kernel's operations ----

  /** signal_post. */
  function Post(p: Process, signum: int): Process {
    if signum <= 0 || signum >= NSIG then p else p.(pending := SetBit(p.pending, signum))
  }

  /** signal_release. */
  function Release(p: Process): Process {
    p.(sigstack := 0, inHandler := false)
  }

  /** signal_default_terminate; sys_stop by another process and sys_exit do the same to the signal state. */
  function Terminate(p: Process): Process {
    Release(p.(zombie := true, image := false))
  }

  /** The frame that enters the handler h for signum on the stack at stk. */
  function HandlerFrame(tf: Frame, h: nat, signum: nat, stk: nat): Frame {
    var top := stk + SIGSTACK_SIZE;
    tf.(sepc := h, sp := top - top % 16, a0 := signum, ra := stk)
  }

  /** signal_check_and_dispatch; stk is what kmalloc gives for the signal stack, 0 when it fails. */
  function Dispatch(p: Process, stk: nat): (q: Process)
    requires |p.handlers| == NSIG
    ensures |q.handlers| == NSIG
  {
    if !p.image || p.inHandler || p.pending == 0 then p
    else
      var signum := Lowest(p.pending);
      var p1 := p.(pending := ClearBit(p.pending, signum));
      var h := if signum < NSIG then p.handlers[signum] else SIG_DFL;  // only bits 1 to 31 are ever set
      if h == SIG_IGN then p1
      else if h == SIG_DFL then Terminate(p1)
      else if stk == 0 then Terminate(p1.(saved := p.tf))
      else p1.(saved := p.tf, sigstack := stk, inHandler := true, tf := HandlerFrame(p.tf, h, signum, stk),
               started := p.started + [(signum, stk)])
  }

  /** System calls; Exec is one that succeeds, with the entry, stack and thread pointer of the new image. */
  datatype Call =
    | SigReturn
    | SetHandler(signum: int, handler: nat)
    | Exec(entry: nat, sp: nat, tp: nat)
    | Other(result: nat)

  function MinusOne(): nat {
    WORD - 1
  }

  /** The frame that starts a new image: all registers cleared but sp and tp, the status registers kept. */
  function ExecFrame(tf: Frame, entry: nat, sp: nat, tp: nat): Frame {
    ZeroFrame().(sepc := entry, sp := sp, tp := tp, sstatus := tf.sstatus, scause := tf.scause, stval := tf.stval)
  }

  /** do_syscall, for the calls that touch signals; any other call only has its result. */
  function Syscall(p: Process, call: Call): (r: (Process, nat))
    requires |p.handlers| == NSIG
    ensures |r.0.handlers| == NSIG
  {
    match call
    case SigReturn => if p.inHandler then (Release(p.(tf := p.saved)), p.saved.a0) else (p, MinusOne())
    case Exec(entry, sp, tp) =>
      (Release(p.(handlers := DefaultHandlers(), pending := 0, tf := ExecFrame(p.tf, entry, sp, tp))), 0)
    case SetHandler(signum, handler) =>
      if 0 < signum < NSIG then (p.(handlers := p.handlers[signum := handler]), p.handlers[signum]) else (p, MinusOne())
    case Other(result) => (p, result)
  }

  /** The ECALL_U path of trap_handler up to signal delivery: step over the ecall, run the call, write back a0. */
  function Ecall(p: Process, user: Frame, call: Call): (q: Process)
    requires |p.handlers| == NSIG
    ensures |q.handlers| == NSIG
  {
    var (p1, r) := Syscall(p.(tf := user.(sepc := (user.sepc + 4) % WORD)), call);
    p1.(tf := p1.tf.(a0 := r))
  }

  /**
   * What can happen to the process: a signal is posted, user code runs and traps with some frame by
   * interrupt or by system call, or the process dies by its own exit or by another process's stop.
   */
  datatype Event =
    | Posted(signum: int)
    | Interrupt(user: Frame, stk: nat)
    | SystemCall(user: Frame, call: Call, stk: nat)
    | Died

  function Step(p: Process, e: Event): (q: Process)
    requires |p.handlers| == NSIG
    ensures |q.handlers| == NSIG
  {
    match e
    case Posted(signum) => Post(p, signum)
    case Interrupt(user, stk) => Dispatch(p.(tf := user), stk)
    case SystemCall(user, call, stk) => Dispatch(Ecall(p, user, call), stk)
    case Died => Terminate(p)
  }

  // ---- what the operations do, field by field ----

  /**
   * The frame tf runs the handler h of signum instead of what the frame `user` would go on with: it returns
   * to the trampoline at the bottom of the stack at stk, and sp is the highest aligned address of the stack.
   */
  ghost predicate Enters(user: Frame, tf: Frame, h: nat, signum: nat, stk: nat) {
    && tf.sepc == h && tf.a0 == signum && tf.ra == stk
    && stk < tf.sp <= stk + 8192 && tf.sp % 16 == 0 && (forall x :: x % 16 == 0 && x <= stk + 8192 ==> x <= tf.sp)
    && tf == user.(sepc := tf.sepc, a0 := tf.a0, ra := tf.ra, sp := tf.sp)
  }

  /** No signal is pending below signum, which is no longer pending; nothing else has changed there. */
  ghost predicate Taken(before: nat, signum: nat, after: nat) {
    && Bit(before, signum) && (forall i: nat :: i < signum ==> !Bit(before, i))
    && forall i: nat :: Bit(after, i) <==> Bit(before, i) && i != signum
  }

  /** The process is dead: image and signal stack are gone. */
  predicate Killed(p: Process) {
    p.zombie && !p.image && p.sigstack == 0 && !p.inHandler
  }

  /**
   * signal_check_and_dispatch on the pending signal signum: an ignored one is dropped; one without a handler,
   * or for which there is no stack, kills the process; any other one enters its handler.
   */
  ghost predicate Delivered(p: Process, stk: nat, signum: nat, q: Process)
    requires |p.handlers| == NSIG
  {
    && signum < NSIG && Taken(p.pending, signum, q.pending) && q.handlers == p.handlers
    && var h := p.handlers[signum];
       if h == SIG_IGN then
         q == p.(pending := q.pending)
       else if h == SIG_DFL || stk == 0 then
         Killed(q) && q.tf == p.tf && q.started == p.started
       else
         && Enters(p.tf, q.tf, h, signum, stk) && q.saved == p.tf && q.sigstack == stk && q.inHandler
         && q.image == p.image && q.zombie == p.zombie && q.started == p.started + [(signum, stk)]
  }

  lemma DispatchDelivers(p: Process, stk: nat)
    requires Inv(p) && p.image && !p.inHandler && p.pending != 0
    ensures Delivered(p, stk, Lowest(p.pending), Dispatch(p, stk))
  {
    var signum := Lowest(p.pending);
    forall i: nat ensures Bit(ClearBit(p.pending, signum), i) <==> Bit(p.pending, i) && i != signum {
      ClearBitBits(p.pending, signum, i);
    }
    FrameEnters(p.tf, p.handlers[signum], signum, stk);
  }

  lemma FrameEnters(user: Frame, h: nat, signum: nat, stk: nat)
    ensures Enters(user, HandlerFrame(user, h, signum, stk), h, signum, stk)
  {
    var top := stk + SIGSTACK_SIZE;
    forall x | x % 16 == 0 && x <= top ensures x <= top - top % 16 {
    }
  }

  /** An ecall goes on behind the instruction with the result in a0; a sigreturn and an exec replace the frame. */
  lemma EcallMeans(p: Process, user: Frame, call: Call)
    requires |p.handlers| == NSIG
    ensures var q := Ecall(p, user, call);
            var next := user.(sepc := (user.sepc + 4) % WORD);
            match call
            case Other(result) => q == p.(tf := next.(a0 := result))
            case SetHandler(signum, handler) =>
              if 0 < signum < NSIG
              then q == p.(tf := next.(a0 := p.handlers[signum]), handlers := p.handlers[signum := handler])
              else q == p.(tf := next.(a0 := WORD - 1))
            case SigReturn =>
              if p.inHandler then q == p.(tf := p.saved, inHandler := false, sigstack := 0)
              else q == p.(tf := next.(a0 := WORD - 1))
            case Exec(entry, sp, tp) =>
              && FreshImage(user, entry, sp, tp, q.tf) && AllDefault(q.handlers)
              && q == p.(tf := q.tf, handlers := q.handlers, pending := 0, inHandler := false, sigstack := 0)
  {
  }

  /** An interrupt that delivers nothing goes back to the frame it came with. */
  lemma InterruptMeans(p: Process, user: Frame, stk: nat)
    requires |p.handlers| == NSIG && (!p.image || p.inHandler || p.pending == 0)
    ensures Step(p, Interrupt(user, stk)) == p.(tf := user)
  {
  }

  predicate AllDefault(handlers: seq<nat>) {
    |handlers| == NSIG && forall i :: 0 <= i < NSIG ==> handlers[i] == SIG_DFL
  }

  /** The frame that starts a new image: every register but sp and tp is 0, the status registers stay. */
  predicate FreshImage(user: Frame, entry: nat, sp: nat, tp: nat, tf: Frame) {
    tf == Frame(0, sp, 0, tp, 0, 0, 0, 0, 0, 0, 0, 0, 0, 0, 0, 0, 0, 0, 0, 0, 0, 0, 0, 0, 0, 0, 0, 0, 0, 0, 0,
                entry, user.sstatus, user.scause, user.stval)
  }

  // ---- invariant ----

  /** A signal stack is held exactly while a handler is active; only signals 1 to 31 are ever pending. */
  ghost predicate Inv(p: Process) {
    && |p.handlers| == NSIG
    && (p.inHandler <==> p.sigstack != 0)
    && (p.zombie ==> !p.image && !p.inHandler)
    && (forall i: nat :: Bit(p.pending, i) ==> 0 < i < NSIG)
  }

  /** A new process satisfies the invariant. */
  lemma InitialInv(tf: Frame)
    ensures Inv(Initial(tf))
  {
    forall i: nat ensures !Bit(0, i) {
      ZeroHasNoBits(i);
    }
  }

  lemma PostMeans(p: Process, signum: int)
    ensures Post(p, signum) == p.(pending := Post(p, signum).pending)
    ensures forall i: nat ::
              Bit(Post(p, signum).pending, i) <==> Bit(p.pending, i) || (0 < signum < NSIG && i == signum)
  {
    if 0 < signum < NSIG {
      forall i: nat ensures Bit(SetBit(p.pending, signum), i) <==> Bit(p.pending, i) || i == signum {
        SetBitBits(p.pending, signum, i);
      }
    }
  }

  lemma PostKeeps(p: Process, signum: int)
    requires Inv(p)
    ensures Inv(Post(p, signum))
  {
    if 0 < signum < NSIG {
      forall i: nat | Bit(SetBit(p.pending, signum), i) ensures 0 < i < NSIG {
        SetBitBits(p.pending, signum, i);
      }
    }
  }

  lemma DispatchKeeps(p: Process, stk: nat)
    requires Inv(p)
    ensures Inv(Dispatch(p, stk))
  {
    if p.pending != 0 {
      forall i: nat | Bit(ClearBit(p.pending, Lowest(p.pending)), i) ensures 0 < i < NSIG {
        ClearBitBits(p.pending, Lowest(p.pending), i);
      }
    }
  }

  lemma StepKeeps(p: Process, e: Event)
    requires Inv(p) && !p.zombie
    ensures Inv(Step(p, e))
  {
    match e
    case Posted(signum) => PostKeeps(p, signum);
    case Interrupt(user, stk) => DispatchKeeps(p.(tf := user), stk);
    case SystemCall(user, call, stk) =>
      EcallKeeps(p, user, call);
      DispatchKeeps(Ecall(p, user, call), stk);
    case Died =>
  }

  lemma EcallKeeps(p: Process, user: Frame, call: Call)
    requires Inv(p)
    ensures Inv(Ecall(p, user, call))
  {
    forall i: nat ensures !Bit(0, i) {
      ZeroHasNoBits(i);
    }
  }

  /** The state after a series of events, for as long as the process lives. */
  function Run(p: Process, es: seq<Event>): (q: Process)
    requires |p.handlers| == NSIG
    ensures |q.handlers| == NSIG
    decreases |es|
  {
    if es == [] || p.zombie then p else Run(Step(p, es[0]), es[1..])
  }

  lemma {:induction false} RunKeeps(p: Process, es: seq<Event>)
    requires Inv(p)
    ensures Inv(Run(p, es))
    decreases |es|
  {
    if es != [] && !p.zombie {
      StepKeeps(p, es[0]);
      RunKeeps(Step(p, es[0]), es[1..]);
    }
  }

  // ---- round trip ----

  /** sigreturn, a successful exec and death end a handler. */
  predicate Ender(e: Event) {
    e.Died? || (e.SystemCall? && (e.call.SigReturn? || e.call.Exec?))
  }

  predicate NoEnder(es: seq<Event>) {
    forall i :: 0 <= i < |es| ==> !Ender(es[i])
  }

  /** The handler that was entered as the n-th is no longer running, or another has been entered since. */
  predicate Over(p: Process, n: nat) {
    !p.inHandler || |p.started| > n
  }

  /** One event ends the handler exactly if it is one of the enders; otherwise what the handler left stays. */
  lemma HandlerStep(p: Process, e: Event)
    requires Inv(p) && p.inHandler
    ensures var q := Step(p, e);
            if Ender(e) then Over(q, |p.started|) && p.started <= q.started
            else q.inHandler && q.saved == p.saved && q.sigstack == p.sigstack && q.started == p.started &&
                 q.image == p.image
  {
  }

  lemma DispatchOver(p: Process, stk: nat, n: nat)
    requires Inv(p) && Over(p, n) && |p.started| >= n
    ensures Over(Dispatch(p, stk), n) && |Dispatch(p, stk).started| >= n
  {
  }

  lemma EcallOver(p: Process, user: Frame, call: Call, n: nat)
    requires Inv(p) && Over(p, n)
    ensures Over(Ecall(p, user, call), n) && Ecall(p, user, call).started == p.started
  {
  }

  lemma OverStep(p: Process, e: Event, n: nat)
    requires Inv(p) && Over(p, n) && |p.started| >= n
    ensures Over(Step(p, e), n) && |Step(p, e).started| >= n
  {
    match e
    case Interrupt(user, stk) => DispatchOver(p.(tf := user), stk, n);
    case SystemCall(user, call, stk) =>
      EcallKeeps(p, user, call);
      EcallOver(p, user, call, n);
      DispatchOver(Ecall(p, user, call), stk, n);
    case _ =>
  }

  lemma {:induction false} OverStays(p: Process, es: seq<Event>, n: nat)
    requires Inv(p) && Over(p, n) && |p.started| >= n
    ensures Over(Run(p, es), n)
    decreases |es|
  {
    if es != [] && !p.zombie {
      StepKeeps(p, es[0]);
      OverStep(p, es[0], n);
      OverStays(Step(p, es[0]), es[1..], n);
    }
  }

  /**
   * A handler goes on exactly as long as there is no sigreturn, no successful exec and no death: whatever
   * else the handler does, whatever interrupts it and whatever is posted, no other handler starts and the
   * saved frame and the stack stay.
   */
  lemma {:induction false} HandlerUndisturbed(p: Process, es: seq<Event>)
    requires Inv(p) && p.inHandler
    ensures var q := Run(p, es);
            && Inv(q) && (NoEnder(es) <==> q.inHandler && q.started == p.started)
            && (NoEnder(es) ==> !q.zombie && q.saved == p.saved && q.sigstack == p.sigstack && q.image == p.image)
    decreases |es|
  {
    if es != [] {
      StepKeeps(p, es[0]);
      HandlerStep(p, es[0]);
      var q, rest := Step(p, es[0]), es[1..];
      assert NoEnder(es) <==> !Ender(es[0]) && NoEnder(rest);
      if Ender(es[0]) {
        RunKeeps(q, rest);
        OverStays(q, rest, |p.started|);
      } else {
        HandlerUndisturbed(q, rest);
      }
    }
  }

  /** sigreturn puts back the saved frame, sepc and a0 included, whatever frame the trampoline traps with. */
  lemma ReturnRestores(p: Process, user: Frame)
    requires Inv(p) && p.inHandler
    ensures var q := Ecall(p, user, SigReturn);
            q == p.(tf := p.saved, inHandler := false, sigstack := 0) && Inv(q)
  {
  }

  /** A signal with a user handler is pending and can be delivered. */
  predicate Deliverable(p: Process) {
    p.image && !p.inHandler && p.pending != 0 && |p.handlers| == NSIG && Lowest(p.pending) < NSIG &&
      p.handlers[Lowest(p.pending)] > SIG_IGN
  }

  /**
   * The round trip: from the dispatch of a handler, through any activity, to the frame its sigreturn
   * leaves, which is the frame the signal interrupted.
   */
  lemma SignalRoundTrip(p: Process, stk: nat, es: seq<Event>, user: Frame)
    requires Inv(p) && !p.zombie && Deliverable(p) && stk != 0 && NoEnder(es)
    ensures var entered := Dispatch(p, stk);
            var signum := Lowest(p.pending);
            && Enters(p.tf, entered.tf, p.handlers[signum], signum, stk) && entered.sigstack == stk
            && entered.started == p.started + [(signum, stk)]
    ensures var left := Run(Dispatch(p, stk), es);
            && Ecall(left, user, SigReturn).tf == p.tf && !left.zombie
            && Step(left, SystemCall(user, SigReturn, stk)) ==
               Dispatch(left.(tf := p.tf, inHandler := false, sigstack := 0), stk)
  {
    DispatchKeeps(p, stk);
    DispatchDelivers(p, stk);
    HandlerUndisturbed(Dispatch(p, stk), es);
    ReturnRestores(Run(Dispatch(p, stk), es), user);
  }

  // ---- a batch of signals ----

  /** One handler's life: what happens while it is active, the frame of its sigreturn, and the next stack. */
  datatype Round = Round(activity: seq<Event>, user: Frame, stk: nat)

  /** Each handler in turn runs and returns; its return delivers the next pending signal. */
  function Batch(p: Process, rounds: seq<Round>): (q: Process)
    requires |p.handlers| == NSIG
    ensures |q.handlers| == NSIG
    decreases |rounds|
  {
    if rounds == [] || !p.inHandler then p else Batch(AfterRound(p, rounds[0]), rounds[1..])
  }

  function AfterRound(p: Process, round: Round): (q: Process)
    requires |p.handlers| == NSIG
    ensures |q.handlers| == NSIG
  {
    Step(Run(p, round.activity), SystemCall(round.user, SigReturn, round.stk))
  }

  /** The frame a batch of handlers will end in: saved while one runs, live again behind the last. */
  predicate EndsIn(p: Process, frame: Frame) {
    p.zombie || (if p.inHandler then p.saved == frame else p.tf == frame)
  }

  /**
   * However many handlers follow one another, whatever they do and whatever is posted meanwhile, the frame
   * that the last one returns to is the one the first interrupted, unless a default action kills the process.
   */
  lemma {:induction false} BatchKeepsFrame(p: Process, frame: Frame, rounds: seq<Round>)
    requires Inv(p) && EndsIn(p, frame) && forall i :: 0 <= i < |rounds| ==> NoEnder(rounds[i].activity)
    ensures Inv(Batch(p, rounds)) && EndsIn(Batch(p, rounds), frame)
    decreases |rounds|
  {
    if rounds != [] && p.inHandler {
      RoundKeepsFrame(p, frame, rounds[0]);
      BatchKeepsFrame(AfterRound(p, rounds[0]), frame, rounds[1..]);
    }
  }

  lemma RoundKeepsFrame(p: Process, frame: Frame, round: Round)
    requires Inv(p) && p.inHandler && p.saved == frame && NoEnder(round.activity)
    ensures Inv(AfterRound(p, round)) && EndsIn(AfterRound(p, round), frame)
  {
    HandlerUndisturbed(p, round.activity);
    var left := Run(p, round.activity);
    StepKeeps(left, SystemCall(round.user, SigReturn, round.stk));
    ReturnRestores(left, round.user);
  }

  predicate IsPosted(es: seq<Event>, i: nat) {
    0 < i < NSIG && exists k :: 0 <= k < |es| && es[k] == Posted(i)
  }

  /** While a handler runs, exactly the signals posted join the pending ones. */
  lemma {:induction false} PendingAfter(p: Process, es: seq<Event>, i: nat)
    requires Inv(p) && p.inHandler && NoEnder(es)
    ensures Bit(Run(p, es).pending, i) <==> Bit(p.pending, i) || IsPosted(es, i)
    decreases |es|
  {
    if es != [] {
      var q, rest := Step(p, es[0]), es[1..];
      StepKeeps(p, es[0]);
      HandlerStep(p, es[0]);
      PendingAfter(q, rest, i);
      PostedFirst(es, i);
      if es[0].Posted? && 0 < es[0].signum < NSIG {
        SetBitBits(p.pending, es[0].signum, i);
      }
    }
  }

  lemma PostedFirst(es: seq<Event>, i: nat)
    requires es != []
    ensures IsPosted(es, i) <==> (0 < i < NSIG && es[0] == Posted(i)) || IsPosted(es[1..], i)
  {
    if k :| 0 <= k < |es| && es[k] == Posted(i) {
      assert k > 0 ==> es[1..][k - 1] == Posted(i);
    }
    if k :| 0 <= k < |es[1..]| && es[1..][k] == Posted(i) {
      assert es[k + 1] == Posted(i);
    }
  }

  /** Everything pending has a number above s. */
  ghost predicate AllAbove(p: Process, s: nat) {
    forall i: nat :: Bit(p.pending, i) ==> i > s
  }

  /** The signal whose handler was entered last. */
  function Current(p: Process): nat
    requires p.started != []
  {
    p.started[|p.started| - 1].0
  }

  /** A handler has just been entered: everything still pending has a higher number than its signal. */
  ghost predicate Entered(p: Process) {
    Inv(p) && p.inHandler && p.image && p.started != [] && AllAbove(p, Current(p))
  }

  /** Entering the handler of the lowest signal leaves only higher ones pending. */
  lemma RestAbove(p: Process, stk: nat)
    requires Inv(p) && Deliverable(p) && stk != 0
    ensures Entered(Dispatch(p, stk)) && Current(Dispatch(p, stk)) == Lowest(p.pending)
  {
    DispatchKeeps(p, stk);
    forall i: nat | Bit(ClearBit(p.pending, Lowest(p.pending)), i) ensures i > Lowest(p.pending) {
      ClearBitBits(p.pending, Lowest(p.pending), i);
    }
  }

  /** A handler follows at once iff the lowest signal pending at the return has one and there is a stack for it. */
  predicate Follows(left: Process, stk: nat) {
    left.pending > 0 && Lowest(left.pending) < |left.handlers| && left.handlers[Lowest(left.pending)] > SIG_IGN &&
      stk != 0
  }

  /**
   * The handler that follows is that of the lowest signal pending at the return; its number is higher than
   * that of the one before exactly if no signal up to that one was posted meanwhile.
   */
  lemma NextHandler(p: Process, round: Round)
    requires Entered(p) && NoEnder(round.activity)
    ensures var left, q := Run(p, round.activity), AfterRound(p, round);
            && (q.inHandler <==> Follows(left, round.stk))
            && (q.inHandler ==>
                  && Entered(q) && q.started == p.started + [(Lowest(left.pending), round.stk)]
                  && Enters(p.saved, q.tf, left.handlers[Current(q)], Current(q), round.stk)
                  && (Current(q) > Current(p) <==> forall i: nat :: IsPosted(round.activity, i) ==> i > Current(p)))
  {
    HandlerUndisturbed(p, round.activity);
    var left := Run(p, round.activity);
    ReturnRestores(left, round.user);
    if left.pending > 0 {
      forall i: nat ensures Bit(left.pending, i) <==> Bit(p.pending, i) || IsPosted(round.activity, i) {
        PendingAfter(p, round.activity, i);
      }
      if Follows(left, round.stk) {
        RestAbove(Ecall(left, round.user, SigReturn), round.stk);
        DispatchDelivers(Ecall(left, round.user, SigReturn), round.stk);
      }
    }
  }

  lemma {:induction false} StillEntered(p: Process, rounds: seq<Round>)
    requires Entered(p) && forall i :: 0 <= i < |rounds| ==> NoEnder(rounds[i].activity)
    ensures var q := Batch(p, rounds); q.inHandler ==> Entered(q)
    decreases |rounds|
  {
    if rounds != [] {
      NextHandler(p, rounds[0]);
      if AfterRound(p, rounds[0]).inHandler {
        StillEntered(AfterRound(p, rounds[0]), rounds[1..]);
      }
    }
  }

  lemma {:induction false} BatchLast(p: Process, rounds: seq<Round>, round: Round)
    requires |p.handlers| == NSIG
    ensures var q := Batch(p, rounds); Batch(p, rounds + [round]) == if q.inHandler then AfterRound(q, round) else q
    decreases |rounds|
  {
    if rounds != [] && p.inHandler {
      assert (rounds + [round])[1..] == rounds[1..] + [round];
      BatchLast(AfterRound(p, rounds[0]), rounds[1..], round);
    }
  }

  /**
   * At every point of a batch, whatever is posted or re-registered meanwhile: behind the k-th handler comes
   * that of the lowest signal pending at its return, entered from the frame the batch began with, if that
   * signal has a handler and there is a stack. The numbers ascend but for signals posted meanwhile.
   */
  lemma BatchByPriority(p: Process, rounds: seq<Round>, k: nat)
    requires Entered(p) && (forall i :: 0 <= i < |rounds| ==> NoEnder(rounds[i].activity)) && k < |rounds|
    ensures var q, r := Batch(p, rounds[..k]), Batch(p, rounds[..k + 1]);
            q.inHandler ==>
              var left := Run(q, rounds[k].activity);
              && q.started != [] && (r.inHandler <==> Follows(left, rounds[k].stk))
              && (r.inHandler ==>
                    && r.started == q.started + [(Lowest(left.pending), rounds[k].stk)]
                    && Enters(p.saved, r.tf, left.handlers[Current(r)], Current(r), rounds[k].stk)
                    && (Current(r) > Current(q) <==>
                        forall i: nat :: IsPosted(rounds[k].activity, i) ==> i > Current(q)))
  {
    hide Run, AfterRound, Batch, AllAbove, Dispatch;
    var before := rounds[..k];
    StillEntered(p, before);
    assert rounds[..k + 1] == before + [rounds[k]];
    BatchLast(p, before, rounds[k]);
    if Batch(p, before).inHandler {
      BatchKeepsFrame(p, p.saved, before);
      NextHandler(Batch(p, before), rounds[k]);
    }
  }

  /** Activity that neither ends the handler, nor posts signals, nor changes handlers. */
  predicate Quiet(es: seq<Event>) {
    forall i :: 0 <= i < |es| ==> !Ender(es[i]) && !es[i].Posted? && !(es[i].SystemCall? && es[i].call.SetHandler?)
  }

  lemma {:induction false} QuietKeeps(p: Process, es: seq<Event>)
    requires Inv(p) && p.inHandler && Quiet(es)
    ensures Inv(Run(p, es)) && Run(p, es).pending == p.pending && Run(p, es).handlers == p.handlers
    decreases |es|
  {
    if es != [] {
      StepKeeps(p, es[0]);
      QuietKeeps(Step(p, es[0]), es[1..]);
    }
  }

  predicate AllHandled(p: Process) {
    |p.handlers| == NSIG && forall i: nat :: i < NSIG && Bit(p.pending, i) ==> p.handlers[i] > SIG_IGN
  }

  /** The signals paired with the stacks they get. */
  function Paired(signals: seq<nat>, stk: nat, rounds: seq<Round>): seq<(nat, nat)>
    requires |rounds| >= |signals|
  {
    if signals == [] then [] else [(signals[0], stk)] + Paired(signals[1..], rounds[0].stk, rounds[1..])
  }

  ghost predicate GoodRounds(rounds: seq<Round>) {
    forall i :: 0 <= i < |rounds| ==> Quiet(rounds[i].activity) && rounds[i].stk != 0
  }

  /** p once its lowest pending signal has been handled on the stack at stk. */
  function Handled(p: Process, stk: nat): Process
    requires p.pending != 0
  {
    p.(pending := ClearBit(p.pending, Lowest(p.pending)), saved := p.tf,
       started := p.started + [(Lowest(p.pending), stk)])
  }

  lemma OneRound(p: Process, stk: nat, round: Round)
    requires Inv(p) && p.image && !p.zombie && !p.inHandler && AllHandled(p) && p.pending != 0 && stk != 0 &&
             Quiet(round.activity)
    ensures var left := Run(Dispatch(p, stk), round.activity);
            && Inv(left) && Ecall(left, round.user, SigReturn) == Handled(p, stk)
            && AfterRound(Dispatch(p, stk), round) == Dispatch(Handled(p, stk), round.stk)
  {
    var signum, entered := Lowest(p.pending), Dispatch(p, stk);
    DispatchKeeps(p, stk);
    HandlerUndisturbed(entered, round.activity);
    QuietKeeps(entered, round.activity);
    ReturnRestores(Run(entered, round.activity), round.user);
  }

  lemma HandledGood(p: Process, stk: nat)
    requires Inv(p) && !p.inHandler && AllHandled(p) && p.pending != 0
    ensures Inv(Handled(p, stk)) && AllHandled(Handled(p, stk))
  {
    forall i: nat | Bit(Handled(p, stk).pending, i) ensures Bit(p.pending, i) {
      ClearBitBits(p.pending, Lowest(p.pending), i);
    }
  }

  /** Everything pending has a user handler, and there is a round and a stack for each. */
  ghost predicate BatchReady(p: Process, stk: nat, rounds: seq<Round>) {
    && Inv(p) && p.image && !p.zombie && !p.inHandler && AllHandled(p) && stk != 0
    && GoodRounds(rounds) && |rounds| == |Ascending(p.pending)|
  }

  /** The process after the batch: as before, frame included, with nothing pending. */
  ghost function BatchDone(p: Process, stk: nat, rounds: seq<Round>): Process
    requires |rounds| == |Ascending(p.pending)|
  {
    p.(pending := 0, saved := if p.pending == 0 then p.saved else p.tf,
       started := p.started + Paired(Ascending(p.pending), stk, rounds))
  }

  lemma BatchNext(p: Process, stk: nat, rounds: seq<Round>)
    requires BatchReady(p, stk, rounds) && p.pending != 0
    ensures rounds != [] && BatchReady(Handled(p, stk), rounds[0].stk, rounds[1..])
    ensures BatchDone(Handled(p, stk), rounds[0].stk, rounds[1..]) == BatchDone(p, stk, rounds)
  {
    hide Inv, AllHandled, Quiet, Lowest, ClearBit, Ascending;
    PairedFirst(p.pending, stk, rounds);
    HandledGood(p, stk);
  }

  /**
   * A batch: with user handlers for everything pending, one delivery followed by one round per pending
   * signal runs the handlers in ascending order, one at a time, each on its own stack, and ends in the
   * frame it began with.
   */
  lemma {:induction false} BatchInOrder(p: Process, stk: nat, rounds: seq<Round>)
    requires BatchReady(p, stk, rounds)
    ensures Batch(Dispatch(p, stk), rounds) == BatchDone(p, stk, rounds)
    decreases |rounds|
  {
    if p.pending == 0 {
      assert p.started + [] == p.started;
    } else {
      BatchNext(p, stk, rounds);
      BatchFirst(p, stk, rounds);
      BatchInOrder(Handled(p, stk), rounds[0].stk, rounds[1..]);
    }
  }

  lemma PairedFirst(x: nat, stk: nat, rounds: seq<Round>)
    requires x > 0 && |rounds| == |Ascending(x)|
    ensures var y := ClearBit(x, Lowest(x));
            && |rounds| > 0 && |Ascending(y)| == |rounds[1..]|
            && Paired(Ascending(x), stk, rounds) == [(Lowest(x), stk)] +
               Paired(Ascending(y), rounds[0].stk, rounds[1..])
  {
    assert Ascending(x)[1..] == Ascending(ClearBit(x, Lowest(x)));
  }

  lemma BatchFirst(p: Process, stk: nat, rounds: seq<Round>)
    requires Inv(p) && p.image && !p.zombie && !p.inHandler && AllHandled(p) && p.pending != 0 && stk != 0
    requires rounds != [] && GoodRounds(rounds)
    ensures Batch(Dispatch(p, stk), rounds) == Batch(Dispatch(Handled(p, stk), rounds[0].stk), rounds[1..])
  {
    OneRound(p, stk, rounds[0]);
    HandledGood(p, stk);
    DispatchKeeps(p, stk);
    DispatchKeeps(Handled(p, stk), rounds[0].stk);
  }

  /** The process as the object whose fields the trap path updates in place. */
  class Thread {
    var tf: Frame
    var pending: nat
    var handlers: seq<nat>
    var inHandler: bool
    var saved: Frame
    var sigstack: nat
    var image: bool
    var zombie: bool
    ghost var started: seq<(nat, nat)>

    ghost function View(): Process
      reads this
    {
      Process(tf, pending, handlers, inHandler, saved, sigstack, image, zombie, started)
    }

    ghost predicate Valid()
      reads this
    {
      Inv(View())
    }

    /** A new user process, as thread_alloc_bare and signal_state_init leave it. */
    constructor (tf: Frame)
      ensures Valid() && View() == Initial(tf)
      ensures this.tf == tf && pending == 0 && AllDefault(handlers) && !inHandler && sigstack == 0
      ensures image && !zombie && started == []
    {
      this.tf, pending, handlers := tf, 0, DefaultHandlers();
      inHandler, saved, sigstack := false, ZeroFrame(), 0;
      image, zombie, started := true, false, [];
      new;
      InitialInv(tf);
    }

    method PostSignal(signum: int)
      requires Valid()
      modifies `pending
      ensures Valid() && View() == Post(old(View()), signum)
      ensures forall i: nat :: Bit(pending, i) <==> Bit(old(pending), i) || (0 < signum < NSIG && i == signum)
    {
      PostMeans(View(), signum);
      PostKeeps(View(), signum);
      if signum <= 0 || signum >= NSIG {
        return;
      }
      pending := SetBit(pending, signum);
    }

    method ReleaseStack()
      modifies `sigstack, `inHandler
      ensures View() == Release(old(View()))
    {
      sigstack := 0;
      inHandler := false;
    }

    method TerminateDefault()
      modifies `zombie, `image, `sigstack, `inHandler
      ensures View() == Terminate(old(View())) && Killed(View()) && tf == old(tf)
    {
      zombie := true;
      image := false;
      ReleaseStack();
    }

    /** signal_check_and_dispatch; stk is what kmalloc would give. */
    method CheckAndDispatch(stk: nat)
      requires Valid()
      modifies this
      ensures Valid() && View() == Dispatch(old(View()), stk)
      ensures if !old(image) || old(inHandler) || old(pending) == 0 then View() == old(View())
              else exists signum: nat :: Delivered(old(View()), stk, signum, View())
    {
      hide ClearBit, Bit, Delivered;
      ghost var p := View();
      if image && !inHandler && pending != 0 {
        DispatchDelivers(p, stk);
      }
      DispatchKeeps(View(), stk);
      if !image || inHandler || pending == 0 {
        return;
      }
      var signum := LowestBitIndex(pending);
      pending := ClearBit(pending, signum);
      var h := handlers[signum];
      if h == SIG_IGN {
        return;
      }
      if h == SIG_DFL {
        TerminateDefault();
        return;
      }
      saved := tf;
      if stk == 0 {
        TerminateDefault();
        return;
      }
      sigstack := stk;
      inHandler := true;
      var top := stk + SIGSTACK_SIZE;
      top := top - top % 16;
      tf := tf.(sepc := h, sp := top, a0 := signum, ra := stk);
      started := started + [(signum, stk)];
    }

    /** signal_return. */
    method ReturnFromHandler() returns (r: nat)
      requires Valid()
      modifies this
      ensures Valid() && (View(), r) == Syscall(old(View()), SigReturn)
      ensures if old(inHandler) then tf == old(saved) && r == old(saved).a0 && !inHandler && sigstack == 0
              else View() == old(View()) && r == WORD - 1
    {
      if !inHandler {
        return MinusOne();
      }
      r := saved.a0;
      tf := saved;
      ReleaseStack();
    }

    /** sys_signal. */
    method InstallHandler(signum: int, handler: nat) returns (r: nat)
      requires Valid()
      modifies `handlers
      ensures Valid() && (View(), r) == Syscall(old(View()), SetHandler(signum, handler))
      ensures if 0 < signum < NSIG then r == old(handlers)[signum] && handlers == old(handlers)[signum := handler]
              else r == WORD - 1 && handlers == old(handlers)
    {
      if signum <= 0 || signum >= NSIG {
        return MinusOne();
      }
      r := handlers[signum];
      handlers := handlers[signum := handler];
    }

    /** sys_exec once the new image is in place. */
    method ReplaceImage(entry: nat, sp: nat, tp: nat) returns (r: nat)
      requires Valid()
      modifies this
      ensures (View(), r) == Syscall(old(View()), Exec(entry, sp, tp))
      ensures r == 0 && AllDefault(handlers) && pending == 0 && sigstack == 0 && !inHandler
      ensures FreshImage(old(tf), entry, sp, tp, tf) && image == old(image) && zombie == old(zombie)
    {
      handlers := DefaultHandlers();
      pending := 0;
      ReleaseStack();
      tf := ExecFrame(tf, entry, sp, tp);
      r := 0;
    }

    /** trap_handler for an ecall from user mode, without a reschedule, up to the return to user mode. */
    method HandleEcall(user: Frame, call: Call, stk: nat)
      requires Valid() && !zombie
      modifies this
      ensures Valid() && View() == Step(old(View()), SystemCall(user, call, stk))
    {
      hide Syscall, Dispatch;
      EcallKeeps(View(), user, call);
      tf := user.(sepc := (user.sepc + 4) % WORD);
      var r := DoSyscall(call);
      tf := tf.(a0 := r);
      CheckAndDispatch(stk);
    }

    /** do_syscall. */
    method DoSyscall(call: Call) returns (r: nat)
      requires Valid()
      modifies this
      ensures (View(), r) == Syscall(old(View()), call)
    {
      match call {
        case SigReturn => r := ReturnFromHandler();
        case SetHandler(signum, handler) => r := InstallHandler(signum, handler);
        case Exec(entry, sp, tp) => r := ReplaceImage(entry, sp, tp);
        case Other(result) => r := result;
      }
    }
  }
}
