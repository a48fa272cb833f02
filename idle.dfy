/** The decision logic of the mouse idler, jamjam/_scripts/idle.py. A hook
    manager watches low-level mouse and keyboard events and remembers when
    the user last gave input; `move_mouse` walks the cursor one step at a
    time, stopping as soon as the user was active in the last three
    seconds, and lowers a flag around each of its own cursor writes so that
    the hook does not take them for user input. `main` keeps prompting and
    moving until the prompt is neither TRY AGAIN nor CONTINUE.

    The clock, the trajectory (already reduced to the integer points the
    cursor is set to), the results of the next hook in the chain and the
    prompt answers are inputs. */
module Idle {
  import opened Wrappers

  /** `_PAUSE_SECS`: how long user input pauses the idler. */
  const PauseSecs: real := 3.0

  /** `_HC_ACTION`: the hook code of an event the hook may act on. */
  const HcAction: int := 0

  /** The window message of a hook event. */
  datatype Wm = M1Down | M2Down | MouseMove | KeyDown | KeyUp | SysKeyDown | SysKeyUp | OtherWm(code: int)

  /** `_INPUTS`: the seven messages that count as user input. */
  predicate IsInput(wm: Wm)
  {
    !wm.OtherWm?
  }

  /** A button of the prompt, as `MessageBoxW` reports it. */
  datatype Id = TryAgain | Continue | Cancel | OtherId(code: int)

  /** One call of the hook: its hook code and message, the clock when it
      runs, and what `CallNextHookEx` returns or raises. */
  datatype HookCall = HookCall(code: int, wm: Wm, at: real, next: Result<int>)

  /** A cursor position. */
  datatype Point = Point(x: int, y: int)

  /** The timestamp of the last user input after the hook saw `h` with the
      flag `userControl`. */
  function Refreshed(last: real, userControl: bool, h: HookCall): real
  {
    if h.code != HcAction || !userControl then last
    else if IsInput(h.wm) then h.at
    else last
  }

  /** The timestamp after the hook saw each of `hs` in turn. */
  function RefreshedAll(last: real, userControl: bool, hs: seq<HookCall>): real
    decreases |hs|
  {
    if hs == [] then last else Refreshed(RefreshedAll(last, userControl, hs[..|hs| - 1]), userControl, hs[|hs| - 1])
  }

  /** An event the hook takes as user input when the flag is up. */
  predicate Actionable(h: HookCall)
  {
    h.code == HcAction && IsInput(h.wm)
  }

  /** While the flag is down, no hook event, whatever its code or message,
      moves the timestamp. */
  lemma {:induction false} FlagDownIgnoresAll(last: real, hs: seq<HookCall>)
    ensures RefreshedAll(last, false, hs) == last
    decreases |hs|
  {
    if hs != [] {
      FlagDownIgnoresAll(last, hs[..|hs| - 1]);
    }
  }

  /** With the flag up, events that are not actionable input leave the
      timestamp alone. */
  lemma {:induction false} NoInputKeeps(last: real, hs: seq<HookCall>)
    requires forall i :: 0 <= i < |hs| ==> !Actionable(hs[i])
    ensures RefreshedAll(last, true, hs) == last
    decreases |hs|
  {
    if hs != [] {
      NoInputKeeps(last, hs[..|hs| - 1]);
    }
  }

  /** With the flag up, the timestamp is the time of the last actionable
      input event. */
  lemma {:induction false} LastInputWins(last: real, hs: seq<HookCall>, i: nat)
    requires i < |hs| && Actionable(hs[i])
    requires forall j :: i < j < |hs| ==> !Actionable(hs[j])
    ensures RefreshedAll(last, true, hs) == hs[i].at
    decreases |hs|
  {
    if i < |hs| - 1 {
      LastInputWins(last, hs[..|hs| - 1], i);
    }
  }

  /** `int(r // dr)` with `dr = 1`: the number of steps of a move of radius
      `r`. */
  function Steps(r: real): int
  {
    (r / 1.0).Floor
  }

  /** `r` is drawn from [75, 300], so a move has between 75 and 300
      steps. */
  lemma StepsRange(r: real)
    requires 75.0 <= r <= 300.0
    ensures 75 <= Steps(r) <= 300
    ensures Steps(r) as real <= r < Steps(r) as real + 1.0
  {
  }

  /** The loop of `move_mouse` from step `k` on, with the timestamp `last`:
      before step `k` it stops if the user was active less than
      `PauseSecs` before `clock[k]`; otherwise it writes, the hook sees the
      events `during[k]` with the flag down and then `after[k]` with the
      flag up. The result is how many steps were written and the final
      timestamp. */
  function Moving(last: real, steps: int, clock: seq<real>, during: seq<seq<HookCall>>,
                  after: seq<seq<HookCall>>, k: nat): (nat, real)
    requires steps <= |clock| && steps <= |during| && steps <= |after|
    decreases steps - k
  {
    if steps <= k then (k, last)
    else if clock[k] - last < PauseSecs then (k, last)
    else
      var last' := RefreshedAll(RefreshedAll(last, false, during[k]), true, after[k]);
      Moving(last', steps, clock, during, after, k + 1)
  }

  /** A move writes at most `steps` points, and at least the `k` already
      written. */
  lemma {:induction false} MovingBound(last: real, steps: int, clock: seq<real>, during: seq<seq<HookCall>>,
                                       after: seq<seq<HookCall>>, k: nat)
    requires steps <= |clock| && steps <= |during| && steps <= |after|
    ensures var n := Moving(last, steps, clock, during, after, k).0;
      k <= n && (k <= steps ==> n <= steps)
    decreases steps - k
  {
    if k < steps && clock[k] - last >= PauseSecs {
      var last' := RefreshedAll(RefreshedAll(last, false, during[k]), true, after[k]);
      MovingBound(last', steps, clock, during, after, k + 1);
    }
  }

  /** The hook events that the manager's own writes cause (those seen with
      the flag down) never change what a move does. */
  lemma {:induction false} OwnWritesIgnored(last: real, steps: int, clock: seq<real>,
                                            during1: seq<seq<HookCall>>, during2: seq<seq<HookCall>>,
                                            after: seq<seq<HookCall>>, k: nat)
    requires steps <= |clock| && steps <= |during1| && steps <= |during2| && steps <= |after|
    ensures Moving(last, steps, clock, during1, after, k) == Moving(last, steps, clock, during2, after, k)
    decreases steps - k
  {
    if k < steps && clock[k] - last >= PauseSecs {
      FlagDownIgnoresAll(last, during1[k]);
      FlagDownIgnoresAll(last, during2[k]);
      var last' := RefreshedAll(last, true, after[k]);
      OwnWritesIgnored(last', steps, clock, during1, during2, after, k + 1);
    }
  }

  /** A step is written only when the user was idle for `PauseSecs` when it
      was checked: if input came less than `PauseSecs` before the first
      check, nothing is written. */
  lemma PausedMoveWritesNothing(last: real, steps: int, clock: seq<real>, during: seq<seq<HookCall>>,
                                after: seq<seq<HookCall>>)
    requires 0 < steps <= |clock| && steps <= |during| && steps <= |after|
    requires clock[0] - last < PauseSecs
    ensures Moving(last, steps, clock, during, after, 0) == (0, last)
  {
  }

  /** When the user stays idle (no actionable input event reaches the hook
      with the flag up) and every check comes `PauseSecs` or more after the
      last input, the move writes all its steps. */
  lemma {:induction false} IdleMoveWritesAll(last: real, steps: int, clock: seq<real>, during: seq<seq<HookCall>>,
                                             after: seq<seq<HookCall>>, k: nat)
    requires k <= steps <= |clock| && steps <= |during| && steps <= |after|
    requires forall i :: k <= i < steps ==> clock[i] - last >= PauseSecs
    requires forall i, j :: k <= i < steps && 0 <= j < |after[i]| ==> !Actionable(after[i][j])
    ensures Moving(last, steps, clock, during, after, k) == (steps, last)
    decreases steps - k
  {
    if k < steps {
      FlagDownIgnoresAll(last, during[k]);
      NoInputKeeps(last, after[k]);
      IdleMoveWritesAll(last, steps, clock, during, after, k + 1);
    }
  }

  /** `_HookManager`. `writes` records the points passed to `SetCursorPos`,
      and `flagAtWrite` the value of the flag at each of those calls;
      `thread` and `future` are the worker's thread id and the future of
      its hook loop, unset until the manager is started. */
  class HookManager {
    var lastUserInput: real
    var userControl: bool
    var thread: Option<int>
    var future: Option<int>
    var writes: seq<Point>
    ghost var flagAtWrite: seq<bool>

    /** `_HookManager(executor)`: the clock reads `now`. */
    constructor (now: real)
      ensures lastUserInput == now && userControl && thread == None && future == None && writes == []
      ensures flagAtWrite == []
    {
      flagAtWrite := [];
      lastUserInput := now;
      userControl := true;
      thread := None;
      future := None;
      writes := [];
    }

    /** `_hk`: an actionable user-input event seen while the flag is up
        refreshes the timestamp; the event is then passed on. An OSError
        with code 127 from the next hook is swallowed and the hook returns
        0; any other error propagates. */
    method Hook(h: HookCall) returns (r: Result<int>)
      modifies this
      ensures h.code == HcAction && old(userControl) && IsInput(h.wm) ==> lastUserInput == h.at
      ensures !(h.code == HcAction && old(userControl) && IsInput(h.wm)) ==> lastUserInput == old(lastUserInput)
      ensures lastUserInput == Refreshed(old(lastUserInput), old(userControl), h)
      ensures userControl == old(userControl) && writes == old(writes) && flagAtWrite == old(flagAtWrite)
      ensures thread == old(thread) && future == old(future)
      ensures h.next.Success? ==> r == h.next
      ensures h.next == Failure(OSError(127)) ==> r == Success(0)
      ensures h.next.Failure? && h.next != Failure(OSError(127)) ==> r == h.next
    {
      if h.code != HcAction || !userControl {
      } else if IsInput(h.wm) {
        lastUserInput := h.at;
      }
      match h.next
      case Success(v) =>
        return Success(v);
      case Failure(e) =>
        if !e.OSError? || e.winerror != 127 {
          return Failure(e);
        }
      return Success(0);
    }

    /** The hook run on each of `hs` in turn. */
    method HookAll(hs: seq<HookCall>)
      modifies this
      ensures lastUserInput == RefreshedAll(old(lastUserInput), old(userControl), hs)
      ensures userControl == old(userControl) && writes == old(writes) && flagAtWrite == old(flagAtWrite)
      ensures thread == old(thread) && future == old(future)
    {
      var i := 0;
      while i < |hs|
        invariant 0 <= i <= |hs|
        invariant lastUserInput == RefreshedAll(old(lastUserInput), old(userControl), hs[..i])
        invariant userControl == old(userControl) && writes == old(writes) && flagAtWrite == old(flagAtWrite)
        invariant thread == old(thread) && future == old(future)
      {
        assert hs[..i + 1][..i] == hs[..i];
        var _ := Hook(hs[i]);
        i := i + 1;
      }
      assert hs[..i] == hs;
    }

    /** `move_mouse` with radius `r`: `path[k]` is where step `k` sets the
        cursor and `clock[k]` the time of its check; `during[k]` and
        `after[k]` are the hook events of step `k` while the flag is down
        and once it is up again. The points written are the trajectory's
        first steps, as many as `Moving` says; the flag was down at each of
        those writes and is up again at the end. */
    method MoveMouse(r: real, path: seq<Point>, clock: seq<real>, during: seq<seq<HookCall>>,
                     after: seq<seq<HookCall>>)
      requires userControl
      requires Steps(r) <= |path| && Steps(r) <= |clock| && Steps(r) <= |during| && Steps(r) <= |after|
      modifies this
      ensures userControl
      ensures var (n, last) := Moving(old(lastUserInput), Steps(r), clock, during, after, 0);
        && n <= |path| && writes == old(writes) + path[..n] && lastUserInput == last
        && flagAtWrite == old(flagAtWrite) + seq(n, _ => false)
      ensures thread == old(thread) && future == old(future)
    {
      var steps := Steps(r);
      var k := 0;
      while k < steps
        invariant 0 <= k && (0 <= steps ==> k <= steps) && userControl
        invariant Moving(lastUserInput, steps, clock, during, after, k)
          == Moving(old(lastUserInput), steps, clock, during, after, 0)
        invariant writes == old(writes) + path[..k]
        invariant flagAtWrite == old(flagAtWrite) + seq(k, _ => false)
        invariant thread == old(thread) && future == old(future)
      {
        if clock[k] - lastUserInput < PauseSecs {
          return;
        }
        userControl := false;
        writes := writes + [path[k]];
        flagAtWrite := flagAtWrite + [userControl];
        assert path[..k + 1] == path[..k] + [path[k]];
        assert seq(k + 1, _ => false) == seq(k, _ => false) + [false];
        HookAll(during[k]);
        userControl := true;
        HookAll(after[k]);
        k := k + 1;
      }
    }

    /** `__enter__` / `start`: hand the hook loop to the executor. */
    method Enter(f: int)
      modifies this
      ensures future == Some(f)
      ensures thread == old(thread) && lastUserInput == old(lastUserInput)
      ensures userControl == old(userControl) && writes == old(writes) && flagAtWrite == old(flagAtWrite)
    {
      future := Some(f);
    }

    /** The start of `_start` on the worker: record its thread id. */
    method StartOnWorker(tid: int)
      modifies this
      ensures thread == Some(tid)
      ensures future == old(future) && lastUserInput == old(lastUserInput)
      ensures userControl == old(userControl) && writes == old(writes) && flagAtWrite == old(flagAtWrite)
    {
      thread := Some(tid);
    }

    /** `__exit__` / `stop`: RuntimeError unless both the worker's thread id
        and the future are set. Posting the quit message and waiting for
        the worker are not part of this model. */
    method Exit() returns (r: Result<()>)
      ensures r.Failure? <==> thread.None? || future.None?
      ensures r.Failure? ==> r.error == RuntimeError("Cannot stop hook before starting it.")
    {
      if thread.None? || future.None? {
        return Failure(RuntimeError("Cannot stop hook before starting it."));
      }
      return Success(());
    }
  }

  /** A fresh manager's timestamp is the time it was made, so a move that
      starts less than `PauseSecs` later writes nothing; and stopping a
      manager that was entered but whose worker has not yet recorded its
      thread id raises RuntimeError. */
  method FreshManager(now: real, r: real, path: seq<Point>, clock: seq<real>, during: seq<seq<HookCall>>,
                      after: seq<seq<HookCall>>)
      returns (written: seq<Point>, early: Result<()>, entered: Result<()>)
    requires 0 < Steps(r) <= |path| && Steps(r) <= |clock| && Steps(r) <= |during| && Steps(r) <= |after|
    requires clock[0] - now < PauseSecs
    ensures written == []
    ensures early.Failure? && entered.Failure?
  {
    var m := new HookManager(now);
    early := m.Exit();
    m.Enter(0);
    entered := m.Exit();
    m.MoveMouse(r, path, clock, during, after);
    written := m.writes;
  }

  /** A C function made for one instance. */
  class CFunc<T> {
    const target: T

    constructor (x: T)
      ensures target == x
    {
      target := x;
    }
  }

  /** `_WinFnDesc`: the C function of the decorated method for each
      instance, kept so it is not garbage-collected. */
  class WinFnDesc<T(==)> {
    var cfuncs: map<T, CFunc<T>>

    constructor ()
      ensures cfuncs == map[]
    {
      cfuncs := map[];
    }

    /** `instance_get(x)`: the stored C function, or a new one, stored. */
    method InstanceGet(x: T) returns (f: CFunc<T>)
      modifies this
      ensures x in old(cfuncs) ==> f == old(cfuncs)[x] && cfuncs == old(cfuncs)
      ensures x !in old(cfuncs) ==> fresh(f) && f.target == x && cfuncs == old(cfuncs)[x := f]
      ensures old(cfuncs).Keys <= cfuncs.Keys && x in cfuncs && cfuncs[x] == f
      ensures forall y | y in old(cfuncs) :: cfuncs[y] == old(cfuncs)[y]
    {
      if x in cfuncs {
        return cfuncs[x];
      }
      f := new CFunc(x);
      cfuncs := cfuncs[x := f];
    }
  }

  /** Two reads for one instance give the same C function; another
      instance gets its own. */
  method InstanceGetTwice<T(==)>(x: T, y: T) returns (f1: CFunc<T>, f2: CFunc<T>, g: CFunc<T>)
    requires x != y
    ensures f1 == f2 && f1 != g && f1.target == x && g.target == y
  {
    var desc := new WinFnDesc<T>();
    f1 := desc.InstanceGet(x);
    f2 := desc.InstanceGet(x);
    g := desc.InstanceGet(y);
  }

  /** The prompt keeps the idler going. */
  predicate Continues(id: Id)
  {
    id == TryAgain || id == Continue
  }

  /** `main`, given the answers of successive prompts. Each round shows the
      prompt and, when the previous answer (initially TRY AGAIN) was TRY
      AGAIN, enters a hook manager and moves the mouse until the prompt is
      answered. `entered[k]` says whether round `k` did; `ended` is false
      when the answers ran out while the idler was still going. */
  method MainLoop(answers: seq<Id>) returns (entered: seq<bool>, ended: bool)
    ensures 0 < |entered| <= |answers| || (answers == [] && entered == [])
    ensures forall k :: 0 <= k < |entered| ==> (entered[k] <==> k == 0 || answers[k - 1] == TryAgain)
    ensures forall k :: 0 <= k < |entered| - 1 ==> Continues(answers[k])
    ensures ended <==> entered != [] && !Continues(answers[|entered| - 1])
    ensures !ended ==> |entered| == |answers|
  {
    var id := TryAgain;
    entered := [];
    var i := 0;
    while Continues(id) && i < |answers|
      invariant 0 <= i <= |answers| && |entered| == i
      invariant i > 0 ==> id == answers[i - 1]
      invariant i == 0 ==> id == TryAgain
      invariant forall k :: 0 <= k < i ==> (entered[k] <==> k == 0 || answers[k - 1] == TryAgain)
      invariant forall k :: 0 <= k < i - 1 ==> Continues(answers[k])
    {
      entered := entered + [id == TryAgain];
      id := answers[i];
      i := i + 1;
    }
    ended := !Continues(id);
  }
}
