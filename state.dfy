/** The state stack of src/a2x_pack_state.c. Named states are registered once; the
    running program asks for pushes and pops, which are queued and carried out one at a
    time by `pending_handle` at the start of each `iteration`. A state moves through its
    Init, Loop and Free stages; a popped state stays on the stack until its Free stage
    has run. What a state's function does each frame, and the frame-rate, input, sound,
    screen and ECS collaborators the iteration calls, are not modelled: the only effect
    of a state function kept here is the requests it queues. */
module State {
  import opened Wrappers

  /** `AStateStage`. */
  datatype Stage = Init | Loop | Free

  /** A registered `AState`: its function and the stage it is in. */
  datatype Info = Info(handler: Handle, stage: Stage)

  /** An entry of `g_pending`: a state to push, or NULL for a pop. */
  datatype Action = PushAction(name: string) | PopAction

  /** `g_states`, `g_stack` (head first: the head is the running state), `g_pending`
      (oldest first) and `g_exiting`. */
  datatype Snapshot = Snapshot(states: map<string, Info>, stack: seq<string>,
                               pending: seq<Action>, exiting: bool)

  predicate Distinct(s: seq<string>)
  {
    forall i, j :: 0 <= i < j < |s| ==> s[i] != s[j]
  }

  /** Every push the queue may hold names a registered state. */
  predicate Requestable(states: map<string, Info>, actions: seq<Action>)
  {
    forall a :: a in actions && a.PushAction? ==> a.name in states
  }

  /** What the code keeps true between calls: stacked and queued states are registered,
      no state is on the stack twice (pushing a stacked state is fatal), and only the
      running state may be in its Free stage (a freed state is destroyed before anything
      else happens). */
  predicate Valid(s: Snapshot)
  {
    && (forall n :: n in s.stack ==> n in s.states)
    && Distinct(s.stack)
    && (forall j :: 1 <= j < |s.stack| ==> s.states[s.stack[j]].stage != Free)
    && Requestable(s.states, s.pending)
  }

  /** `k` pops in a row. */
  function Pops(k: nat): (r: seq<Action>)
    ensures |r| == k && forall a :: a in r ==> a == PopAction
  {
    seq(k, _ => PopAction)
  }

  lemma PopsGrow(k: nat)
    ensures Pops(k) + [PopAction] == Pops(k + 1)
  {
    assert forall i :: 0 <= i < k + 1 ==> (Pops(k) + [PopAction])[i] == PopAction;
  }

  /** How many entries stand above the first `name` on the stack. */
  function IndexOf(s: seq<string>, name: string): (k: nat)
    requires name in s
    ensures k < |s| && s[k] == name
    ensures forall j :: 0 <= j < k ==> s[j] != name
  {
    if s[0] == name then 0 else 1 + IndexOf(s[1..], name)
  }

  /** The queue after the running program asks for `actions`: nothing is queued once
      the program is exiting. */
  function Requested(s: Snapshot, actions: seq<Action>): (r: Snapshot)
    ensures r.states == s.states && r.stack == s.stack && r.exiting == s.exiting
    ensures s.exiting ==> r.pending == s.pending
    ensures !s.exiting ==> r.pending == s.pending + actions
  {
    if s.exiting then s else s.(pending := s.pending + actions)
  }

  /** `a_state_push`: a push of a registered state is queued unless exiting. */
  function Pushed(s: Snapshot, name: string): (r: Snapshot)
    requires s.exiting || name in s.states
    ensures s.exiting ==> r == s
    ensures !s.exiting ==> r.pending == s.pending + [PushAction(name)]
    ensures Valid(s) ==> Valid(r)
  {
    Requested(s, [PushAction(name)])
  }

  /** `a_state_pop`: a pop is queued unless exiting. */
  function Popped(s: Snapshot): (r: Snapshot)
    ensures s.exiting ==> r == s
    ensures !s.exiting ==> r.pending == s.pending + [PopAction]
    ensures Valid(s) ==> Valid(r)
  {
    Requested(s, [PopAction])
  }

  /** `a_state_popUntil`: unless exiting, one pop is queued for every state above the
      first one called `name`, which must be on the stack. */
  function PoppedUntil(s: Snapshot, name: string): (r: Snapshot)
    requires s.exiting || name in s.stack
    ensures s.exiting ==> r == s
    ensures !s.exiting ==>
              && |s.pending| <= |r.pending| && r.pending[..|s.pending|] == s.pending
              && (forall a :: a in r.pending[|s.pending|..] ==> a == PopAction)
              && |r.pending| - |s.pending| < |s.stack|
              && s.stack[|r.pending| - |s.pending|] == name
              && (forall j :: 0 <= j < |r.pending| - |s.pending| ==> s.stack[j] != name)
    ensures Valid(s) ==> Valid(r)
  {
    if s.exiting then s else Requested(s, Pops(IndexOf(s.stack, name)))
  }

  /** `a_state_replace`: unless exiting, a pop and then a push of `name`. */
  function Replaced(s: Snapshot, name: string): (r: Snapshot)
    requires s.exiting || name in s.states
    ensures s.exiting ==> r == s
    ensures !s.exiting ==> r.pending == s.pending + [PopAction, PushAction(name)]
    ensures Valid(s) ==> Valid(r)
  {
    Requested(s, [PopAction, PushAction(name)])
  }

  /** The running state has already run its Free stage, so the next `pending_handle`
      destroys it. */
  predicate Freeing(s: Snapshot)
  {
    s.stack != [] && s.stack[0] in s.states && s.states[s.stack[0]].stage == Free
  }

  /** `a_state_exit` as the code counts: one pop per stacked state, a running state
      that has already run its Free stage included. */
  function ExitedAsWritten(s: Snapshot): (r: Snapshot)
    ensures r.exiting && r.states == s.states && r.stack == s.stack
    ensures !s.exiting ==> r.pending == Pops(|s.stack|)
  {
    if s.exiting then s else s.(exiting := true, pending := Pops(|s.stack|))
  }

  /** Called from the Free stage of the only stacked state, the count as written queues
      a pop that finds the stack empty once the freed state is destroyed, which
      `pending_handle` treats as fatal ("stack is empty"). */
  lemma ExitAsWrittenFromFreeIsFatal(h: Handle)
    ensures var s := Snapshot(map["a" := Info(h, Free)], ["a"], [], false);
            && Valid(s) && Valid(ExitedAsWritten(s))
            && !CanHandle(ExitedAsWritten(s))
  {
    var s := Snapshot(map["a" := Info(h, Free)], ["a"], [], false);
    assert Reaped(ExitedAsWritten(s)).stack == [];
  }

  /** `a_state_exit`: the first call latches `exiting`, drops every queued request and
      queues one pop per live state, leaving out a running state that has already run
      its Free stage; later calls change nothing. */
  function Exited(s: Snapshot): (r: Snapshot)
    ensures r.exiting && r.states == s.states && r.stack == s.stack
    ensures s.exiting ==> r == s
    ensures !s.exiting && (forall n :: n in s.stack ==> n in s.states) ==> r.pending == Pops(|Live(s)|)
    ensures Valid(s) ==> Valid(r)
  {
    if s.exiting then s
    else
      var count := if Freeing(s) then |s.stack| - 1 else |s.stack|;
      LiveCount(s);
      PopsRequestable(s.states, count);
      s.(exiting := true, pending := Pops(count))
  }

  /** A running state that has run its Free stage is the only one not live. */
  lemma LiveCount(s: Snapshot)
    ensures (forall n :: n in s.stack ==> n in s.states) ==>
            |Live(s)| == if Freeing(s) then |s.stack| - 1 else |s.stack|
  {
  }

  /** A queue of pops names no state. */
  lemma PopsRequestable(states: map<string, Info>, k: nat)
    ensures Requestable(states, Pops(k))
  {
  }

  /** Exiting is idempotent, and once exiting every request is ignored. */
  lemma ExitLatches(s: Snapshot, name: string)
    requires name in s.stack
    ensures Exited(Exited(s)) == Exited(s)
    ensures var e := Exited(s);
            Pushed(e, name) == e && Popped(e) == e && PoppedUntil(e, name) == e && Replaced(e, name) == e
  {
  }

  /** The first step of `pending_handle`: a running state that has run its Free stage
      is taken off the stack. */
  function Reaped(s: Snapshot): (r: Snapshot)
    requires forall n :: n in s.stack ==> n in s.states
    ensures r.states == s.states && r.pending == s.pending && r.exiting == s.exiting
    ensures s.stack != [] && s.states[s.stack[0]].stage == Free ==> r.stack == s.stack[1..]
    ensures !(s.stack != [] && s.states[s.stack[0]].stage == Free) ==> r.stack == s.stack
  {
    if s.stack != [] && s.states[s.stack[0]].stage == Free then s.(stack := s.stack[1..]) else s
  }

  /** The states `pending_handle` leaves on the stack that are not about to be destroyed. */
  function Live(s: Snapshot): (r: seq<string>)
    requires forall n :: n in s.stack ==> n in s.states
    ensures |r| <= |s.stack| && r == s.stack[|s.stack| - |r|..]
  {
    Reaped(s).stack
  }

  /** `pending_handle` is not fatal: a queued pop finds a state to pop, and a queued push
      names a state that is not on the stack once a freed state is gone. */
  predicate CanHandle(s: Snapshot)
    requires Valid(s)
  {
    var u := Reaped(s);
    u.pending != [] ==>
      && (u.pending[0].PopAction? ==> u.stack != [])
      && (u.pending[0].PushAction? ==> u.pending[0].name !in u.stack)
  }

  /** `pending_handle`: after a freed state is taken off, either the running state
      moves from Init to Loop (nothing queued), or exactly one queued request is carried
      out: a pop marks the running state Free and leaves it on the stack, a push puts
      the state on top in its Init stage. */
  function Handled(s: Snapshot): (r: Snapshot)
    requires Valid(s) && CanHandle(s)
    ensures r.exiting == s.exiting && r.states.Keys == s.states.Keys
    ensures s.pending == [] ==> r.pending == []
    ensures s.pending != [] ==> r.pending == s.pending[1..]
  {
    var u := Reaped(s);
    if u.pending == [] then
      if u.stack != [] && u.states[u.stack[0]].stage == Init then
        u.(states := u.states[u.stack[0] := u.states[u.stack[0]].(stage := Loop)])
      else u
    else
      match u.pending[0]
      case PopAction =>
        u.(states := u.states[u.stack[0] := u.states[u.stack[0]].(stage := Free)], pending := u.pending[1..])
      case PushAction(name) =>
        u.(states := u.states[name := u.states[name].(stage := Init)], stack := [name] + u.stack,
           pending := u.pending[1..])
  }

  /** What `pending_handle` does to the stack: with nothing queued only a freed state
      goes and an Init state moves to Loop; a pop leaves the running state on the stack
      marked Free; a push puts the pushed state on top in its Init stage. Every other
      state and every state function stays as it was. */
  lemma HandleSteps(s: Snapshot)
    requires Valid(s) && CanHandle(s)
    ensures var r := Handled(s);
      && (forall n :: n in r.states ==> r.states[n].handler == s.states[n].handler)
      && (forall n :: n in r.states && (r.stack == [] || n != r.stack[0]) ==> r.states[n] == s.states[n])
      && (s.pending == [] ==>
            && r.stack == Live(s)
            && (r.stack != [] && s.states[r.stack[0]].stage == Init ==> r.states[r.stack[0]].stage == Loop)
            && (r.stack != [] && s.states[r.stack[0]].stage != Init ==> r.states[r.stack[0]] == s.states[r.stack[0]]))
      && (s.pending != [] && s.pending[0] == PopAction ==>
            r.stack == Live(s) && r.stack != [] && r.states[r.stack[0]].stage == Free)
      && (s.pending != [] && s.pending[0].PushAction? ==>
            r.stack == [s.pending[0].name] + Live(s) && r.states[r.stack[0]].stage == Init)
  {
  }

  /** `pending_handle` keeps the stack well formed. */
  lemma HandleKeepsValid(s: Snapshot)
    requires Valid(s) && CanHandle(s)
    ensures Valid(Handled(s))
  {
    var u := Reaped(s);
    assert Distinct(u.stack);
    var r := Handled(s);
    assert forall a :: a in r.pending ==> a in s.pending;
    if u.pending == [] {
      assert r.stack == u.stack;
    } else if u.pending[0].PopAction? {
      assert r.stack == u.stack;
    } else {
      DistinctCons(u.pending[0].name, u.stack);
    }
  }

  lemma DistinctCons(name: string, stack: seq<string>)
    requires Distinct(stack) && name !in stack
    ensures Distinct([name] + stack)
  {
    var r := [name] + stack;
    forall i, j | 0 <= i < j < |r| ensures r[i] != r[j] {
      if i > 0 {
        assert r[i] == stack[i - 1] && r[j] == stack[j - 1];
      } else {
        assert r[j] in stack;
      }
    }
  }

  /** The queue holds `k` pops and the stack has at least `k` states to pop: the shape
      `a_state_exit` and `a_state_popUntil` leave behind. */
  predicate Unwinding(s: Snapshot, k: nat)
  {
    Valid(s) && s.pending == Pops(k) && k <= |Live(s)|
  }

  /** One `pending_handle` on an unwinding stack destroys a freed state, if any, and
      marks the next one Free. */
  lemma UnwindStep(s: Snapshot, k: nat)
    requires Unwinding(s, k) && k > 0
    ensures CanHandle(s)
    ensures Handled(s).stack == Live(s) && Handled(s).states[Live(s)[0]].stage == Free
    ensures Live(Handled(s)) == Live(s)[1..]
    ensures Unwinding(Handled(s), k - 1)
  {
    assert Pops(k)[0] == PopAction;
    HandleSteps(s);
    HandleKeepsValid(s);
    var h := Handled(s);
    assert h.pending == Pops(k)[1..];
    assert Pops(k)[1..] == Pops(k - 1);
  }

  /** The snapshot after `k` calls of `pending_handle` on a stack unwinding by `k`:
      the queue is empty, the `k - 1` states above it are destroyed and the `k`-th
      live state is marked Free. */
  function Unwound(s: Snapshot, k: nat): (r: Snapshot)
    requires Unwinding(s, k)
    ensures Unwinding(r, 0) && r.exiting == s.exiting && r.states.Keys == s.states.Keys
    ensures k == 0 ==> r == s
    ensures k > 0 ==> r.stack == Live(s)[k - 1..] && r.states[r.stack[0]].stage == Free
    decreases k
  {
    if k == 0 then s
    else
      UnwindStep(s, k);
      Unwound(Handled(s), k - 1)
  }

  /** With nothing queued, `pending_handle` only destroys a freed running state. */
  lemma ReapFreed(u: Snapshot)
    requires Unwinding(u, 0)
    ensures CanHandle(u) && Handled(u).stack == Live(u)
  {
    HandleSteps(u);
  }

  /** `a_state_exit` followed by `pending_handle` once per live state and once more
      empties the stack, so `iteration` then reports that nothing is left to run. */
  lemma {:induction false} ExitEmptiesStack(s: Snapshot)
    requires Valid(s) && !s.exiting
    ensures Unwinding(Exited(s), |Live(s)|)
    ensures var u := Unwound(Exited(s), |Live(s)|); CanHandle(u) && Handled(u).stack == []
  {
    var e := Exited(s);
    assert Live(e) == Live(s);
    var k := |Live(s)|;
    var u := Unwound(e, k);
    ReapFreed(u);
    if k > 0 {
      assert u.stack == Live(e)[k - 1..];
      assert |u.stack| == 1;
    }
  }

  /** `a_state_popUntil(name)` with nothing queued leaves the stack unwinding by the
      number of states above `name`. */
  lemma PopUntilUnwinds(s: Snapshot, name: string)
    requires Valid(s) && !s.exiting && s.pending == [] && name in s.stack
    requires s.states[s.stack[0]].stage != Free
    ensures Unwinding(PoppedUntil(s, name), IndexOf(s.stack, name))
    ensures Live(PoppedUntil(s, name)) == s.stack
  {
    var p := PoppedUntil(s, name);
    assert p.pending == [] + Pops(IndexOf(s.stack, name));
  }

  /** `a_state_popUntil(name)`, asked from a running state with nothing queued, followed
      by as many `pending_handle` calls as it queued pops and one more, leaves `name`
      on top of the stack and every state above it destroyed. */
  lemma {:induction false} PopUntilUncovers(s: Snapshot, name: string)
    requires Valid(s) && !s.exiting && s.pending == [] && name in s.stack
    requires s.states[s.stack[0]].stage != Free
    ensures var k := IndexOf(s.stack, name);
            && Unwinding(PoppedUntil(s, name), k)
            && (k > 0 ==> var u := Unwound(PoppedUntil(s, name), k);
                          CanHandle(u) && Handled(u).stack == s.stack[k..])
  {
    var k := IndexOf(s.stack, name);
    var p := PoppedUntil(s, name);
    PopUntilUnwinds(s, name);
    if k > 0 {
      var u := Unwound(p, k);
      ReapFreed(u);
      assert u.stack == s.stack[k - 1..];
      assert Live(u) == s.stack[k..];
    }
  }

  /** `a_state_replace(name)`, asked from a running state with nothing queued, followed
      by two `pending_handle` calls puts `name` in place of the running state, in its
      Init stage. */
  lemma {:induction false} ReplaceSwapsTop(s: Snapshot, name: string)
    requires Valid(s) && !s.exiting && s.pending == [] && s.stack != []
    requires s.states[s.stack[0]].stage != Free
    requires name in s.states && name !in s.stack[1..]
    ensures var r := Replaced(s, name);
            && CanHandle(r) && CanHandle(Handled(r))
            && var h := Handled(Handled(r));
               h.stack == [name] + s.stack[1..] && h.states[name].stage == Init && h.pending == []
  {
    var r := Replaced(s, name);
    assert r.pending == [PopAction, PushAction(name)];
    HandleSteps(r);
    HandleKeepsValid(r);
    var h1 := Handled(r);
    assert h1.stack == s.stack && h1.states[s.stack[0]].stage == Free;
    assert h1.pending == [PushAction(name)];
    assert Reaped(h1).stack == s.stack[1..];
  }

  /** The logic frames of a Loop-stage `iteration`: each frame runs the state function,
      which queues `frames[k]`, and a non-empty queue ends the iteration at once; when
      the frame-rate limiter runs out of frames the function's drawing call queues
      `last`. */
  function Stepped(s: Snapshot, frames: seq<seq<Action>>, last: seq<Action>): (r: Snapshot)
    ensures r.states == s.states && r.stack == s.stack && r.exiting == s.exiting
    decreases |frames|
  {
    if frames == [] then Requested(s, last)
    else
      var t := Requested(s, frames[0]);
      if t.pending != [] then t else Stepped(t, frames[1..], last)
  }

  /** A request already queued stops the frame loop after its first logic frame. */
  lemma PendingStopsFrames(s: Snapshot, frames: seq<seq<Action>>, last: seq<Action>)
    requires s.pending != [] && frames != []
    ensures Stepped(s, frames, last) == Requested(s, frames[0])
    ensures Stepped(s, frames, last).pending[..|s.pending|] == s.pending
  {
  }

  /** With nothing queued and no frame asking for anything, every logic frame runs. */
  lemma {:induction false} QuietFramesAllRun(s: Snapshot, frames: seq<seq<Action>>, last: seq<Action>)
    requires s.pending == [] && forall k :: 0 <= k < |frames| ==> frames[k] == []
    ensures Stepped(s, frames, last) == Requested(s, last)
    decreases |frames|
  {
    if frames != [] {
      QuietFramesAllRun(Requested(s, frames[0]), frames[1..], last);
    }
  }

  /** `iteration`: `pending_handle`, then the running state's stage; the stack is
      exactly what `pending_handle` left. */
  function Iterated(s: Snapshot, frames: seq<seq<Action>>, last: seq<Action>): (r: Snapshot)
    requires Valid(s) && CanHandle(s)
    ensures r.stack == Handled(s).stack && r.states == Handled(s).states
    ensures r.exiting == s.exiting
    ensures Handled(s).stack == [] ==> r == Handled(s)
  {
    var h := Handled(s);
    if h.stack == [] then h
    else if h.states[h.stack[0]].stage == Loop then Stepped(h, frames, last)
    else Requested(h, last)
  }

  /** The stepped queue only grows, by requests that are allowed. */
  lemma {:induction false} SteppedKeepsValid(s: Snapshot, frames: seq<seq<Action>>, last: seq<Action>)
    requires Valid(s) && Requestable(s.states, last)
    requires forall k :: 0 <= k < |frames| ==> Requestable(s.states, frames[k])
    ensures Valid(Stepped(s, frames, last))
    decreases |frames|
  {
    if frames != [] {
      var t := Requested(s, frames[0]);
      if t.pending == [] {
        assert forall k :: 0 <= k < |frames[1..]| ==> frames[1..][k] == frames[k + 1];
        SteppedKeepsValid(t, frames[1..], last);
      }
    }
  }

  /** An iteration keeps the state stack well formed when the state function only asks
      for registered states. */
  lemma IterationKeepsValid(s: Snapshot, frames: seq<seq<Action>>, last: seq<Action>)
    requires Valid(s) && CanHandle(s) && Requestable(s.states, last)
    requires forall k :: 0 <= k < |frames| ==> Requestable(s.states, frames[k])
    ensures Valid(Iterated(s, frames, last))
  {
    var h := Handled(s);
    HandleKeepsValid(s);
    if h.stack != [] && h.states[h.stack[0]].stage == Loop {
      SteppedKeepsValid(h, frames, last);
    }
  }

  /** `g_states`, `g_stack`, `g_pending` and `g_exiting`. */
  class StateManager {
    var states: map<string, Info>
    var stack: seq<string>
    var pending: seq<Action>
    var exiting: bool

    function Snap(): Snapshot
      reads this
    {
      Snapshot(states, stack, pending, exiting)
    }

    /** `a_state__init`: nothing registered, stacked or queued. */
    constructor ()
      ensures Snap() == Snapshot(map[], [], [], false) && Valid(Snap())
    {
      states := map[];
      stack := [];
      pending := [];
      exiting := false;
    }

    /** `a_state__new`: registers a state in its Init stage. */
    method New(name: string, handler: Handle)
      requires name !in states
      modifies this
      ensures states == old(states)[name := Info(handler, Init)]
      ensures stack == old(stack) && pending == old(pending) && exiting == old(exiting)
      ensures Valid(old(Snap())) ==> Valid(Snap())
    {
      states := states[name := Info(handler, Init)];
    }

    /** `pending_push`: queuing an unregistered state is fatal. */
    method PendingPush(name: string)
      requires name in states
      modifies this
      ensures Snap() == old(Snap()).(pending := old(pending) + [PushAction(name)])
    {
      pending := pending + [PushAction(name)];
    }

    /** `pending_pop`: queues a NULL entry. */
    method PendingPop()
      modifies this
      ensures Snap() == old(Snap()).(pending := old(pending) + [PopAction])
    {
      pending := pending + [PopAction];
    }

    /** `a_state_push`. */
    method Push(name: string)
      requires exiting || name in states
      modifies this
      ensures Snap() == Pushed(old(Snap()), name)
    {
      if exiting {
        return;
      }
      PendingPush(name);
    }

    /** `a_state_pop`. */
    method Pop()
      modifies this
      ensures Snap() == Popped(old(Snap()))
    {
      if exiting {
        return;
      }
      PendingPop();
    }

    /** `a_state_popUntil`: counts the states above `name`, which is fatal to miss, and
        queues that many pops. */
    method PopUntil(name: string)
      requires exiting || name in stack
      modifies this
      ensures Snap() == PoppedUntil(old(Snap()), name)
    {
      if exiting {
        return;
      }
      var pops := 0;
      var found := false;
      while pops < |stack| && !found
        invariant 0 <= pops <= |stack|
        invariant forall j :: 0 <= j < pops ==> stack[j] != name
        invariant found ==> pops < |stack| && stack[pops] == name
        decreases |stack| - pops, !found
      {
        if stack[pops] == name {
          found := true;
        } else {
          pops := pops + 1;
        }
      }
      assert pops == IndexOf(stack, name);
      var n := pops;
      while n > 0
        invariant 0 <= n <= pops
        invariant Snap() == old(Snap()).(pending := old(pending) + Pops(pops - n))
      {
        n := n - 1;
        PendingPop();
        PopsGrow(pops - n - 1);
      }
    }

    /** `a_state_replace`: a pop, then a push. */
    method Replace(name: string)
      requires exiting || name in states
      modifies this
      ensures Snap() == Replaced(old(Snap()), name)
    {
      if exiting {
        return;
      }
      PendingPop();
      PendingPush(name);
    }

    /** `a_state_exit`: latches, clears the queue and queues a pop per live state (the
        code also counts a running state that has already run its Free stage). */
    method Exit()
      modifies this
      ensures Snap() == Exited(old(Snap()))
    {
      if exiting {
        return;
      }
      var i := |stack|;
      if Freeing(Snap()) {
        i := i - 1;
      }
      ghost var count := i;
      exiting := true;
      pending := [];
      while i > 0
        invariant 0 <= i <= count
        invariant Snap() == old(Snap()).(exiting := true, pending := Pops(count - i))
      {
        i := i - 1;
        PendingPop();
        PopsGrow(count - i - 1);
      }
    }

    /** `pending_handle`; its fatal cases are excluded by `CanHandle`. */
    method PendingHandle()
      requires Valid(Snap()) && CanHandle(Snap())
      modifies this
      ensures Snap() == Handled(old(Snap()))
    {
      var current: Option<string> := if stack == [] then None else Some(stack[0]);
      if current.Some? && states[current.value].stage == Free {
        stack := stack[1..];
        current := if stack == [] then None else Some(stack[0]);
      }
      if pending == [] {
        if current.Some? && states[current.value].stage == Init {
          states := states[current.value := states[current.value].(stage := Loop)];
        }
        return;
      }
      var action := pending[0];
      pending := pending[1..];
      match action
      case PopAction =>
        states := states[current.value := states[current.value].(stage := Free)];
      case PushAction(name) =>
        states := states[name := states[name].(stage := Init)];
        stack := [name] + stack;
    }

    /** The requests a call of the running state's function queues through
        `a_state_push`, `a_state_pop` and the like. */
    method Request(actions: seq<Action>)
      modifies this
      ensures Snap() == Requested(old(Snap()), actions)
    {
      if !exiting {
        pending := pending + actions;
      }
    }

    /** `iteration`: the frame-rate limiter grants `|frames|` logic frames; the result
        says whether a state is left to run. */
    method Iteration(frames: seq<seq<Action>>, last: seq<Action>) returns (running: bool)
      requires Valid(Snap()) && CanHandle(Snap())
      modifies this
      ensures running <==> Handled(old(Snap())).stack != []
      ensures Snap() == Iterated(old(Snap()), frames, last)
    {
      PendingHandle();
      if stack == [] {
        return false;
      }
      if states[stack[0]].stage == Loop {
        var k := 0;
        while k < |frames|
          invariant 0 <= k <= |frames|
          invariant Stepped(Snap(), frames[k..], last) == Iterated(old(Snap()), frames, last)
          invariant stack == Handled(old(Snap())).stack
        {
          Request(frames[k]);
          if pending != [] {
            return true;
          }
          assert frames[k..][1..] == frames[k + 1..];
          k := k + 1;
        }
        Request(last);
      } else {
        Request(last);
      }
      return true;
    }
  }
}
