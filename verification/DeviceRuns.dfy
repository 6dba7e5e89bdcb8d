/** The device protocol counted along whole runs: each call makes one request, and the device takes no other. */
module DeviceHistory {
  import opened Sequences
  import opened DeviceProtocol

  /** The thread asks the device for its operation in the step, if it does. */
  function Asked<D, O, R>(s: State<D, O, R>, step: Step<O>): seq<(Tid, O)> {
    if step.MakeRequest? && step.t in s.places
      && s.places[step.t].Holding? then [(step.t, s.places[step.t].c.op)] else []
  }

  /** The requests made in the first i steps, in order. */
  function Requests<D, O, R>(states: seq<State<D, O, R>>, steps: seq<Step<O>>, i: nat): seq<(Tid, O)>
    requires i <= |steps| <= |states|
  {
    if i == 0 then [] else Requests(states, steps, i - 1) + Asked(states[i - 1], steps[i - 1])
  }

  /** How many interrupts have come. */
  function Interrupts<O>(steps: seq<Step<O>>, i: nat): nat
    requires i <= |steps|
  {
    if i == 0 then 0 else Interrupts(steps, i - 1) + if steps[i - 1].Interrupt? then 1 else 0
  }

  function Named<O, R>(e: Entry<O, R>): (Tid, O) {
    (e.thread, e.op)
  }

  function Names<O, R>(log: seq<Entry<O, R>>): (r: seq<(Tid, O)>)
    ensures |r| == |log|
  {
    seq(|log|, k requires 0 <= k < |log| => Named(log[k]))
  }

  /** A state of a run and the step taken there. */
  lemma RunState<D, O, R>(act: Act<D, O, R>, states: seq<State<D, O, R>>, steps: seq<Step<O>>, i: nat)
    returns (s: State<D, O, R>, step: Step<O>)
    requires IsRun(act, states, steps) && i < |steps|
    ensures s == states[i] && step == steps[i] && Inv(act, s)
    ensures Enabled(s, step) && Safe(s, step) && states[i + 1] == Next(act, s, step)
  {
    EveryRun(act, states, steps, i);
    s, step := states[i], steps[i];
  }

  lemma StepHistory<D, O, R>(act: Act<D, O, R>, s: State<D, O, R>, step: Step<O>)
    requires Enabled(s, step) && Safe(s, step)
    ensures var s' := Next(act, s, step);
            && Names(s'.log) == Names(s.log) + Asked(s, step) && s'.start == s.start
            && s'.completed == s.completed + if step.Interrupt? then 1 else 0
  {
  }

  /** The log is the requests the threads have made, as they made them; an interrupt has come for each but the one under
      way; and the device is what it was at first with these requests carried out, one after the other. */
  lemma {:induction false} LogIsRequests<D, O, R>(act: Act<D, O, R>, states: seq<State<D, O, R>>, steps: seq<Step<O>>,
                                                  i: nat)
    requires IsRun(act, states, steps) && i <= |steps|
    ensures Names(states[i].log) == Requests(states, steps, i) && states[i].completed == Interrupts(steps, i)
    ensures Interrupts(steps, i) + (if states[i].active then 1 else 0) == |Requests(states, steps, i)|
    ensures states[i].start == states[0].device && states[i].device == Replay(act, states[0].device, states[i].log)
  {
    Balanced(act, states, steps, i);
    if i > 0 {
      LogIsRequests(act, states, steps, i - 1);
      HistoryGoesOn(act, states, steps, i - 1);
    }
  }

  lemma Balanced<D, O, R>(act: Act<D, O, R>, states: seq<State<D, O, R>>, steps: seq<Step<O>>, i: nat)
    requires IsRun(act, states, steps) && i < |states|
    ensures var s := states[i];
            && s.completed + (if s.active then 1 else 0) == |s.log| && s.device == Replay(act, s.start, s.log)
            && (i == 0 ==> s.log == [] && s.completed == 0 && s.start == s.device)
  {
    EveryRun(act, states, steps, i);
  }

  lemma HistoryGoesOn<D, O, R>(act: Act<D, O, R>, states: seq<State<D, O, R>>, steps: seq<Step<O>>, i: nat)
    requires IsRun(act, states, steps) && i < |steps|
    ensures var s, s' := states[i], states[i + 1];
            && Names(s'.log) == Names(s.log) + Asked(s, steps[i]) && s'.start == s.start
            && s'.completed == s.completed + if steps[i].Interrupt? then 1 else 0
  {
    var s, step := RunState(act, states, steps, i);
    StepHistory(act, s, step);
  }

  // ---- calls ----------------------------------------------------------------

  /** How many requests thread t makes in the steps from j up to l. */
  function RequestsOf<O>(steps: seq<Step<O>>, j: nat, l: nat, t: Tid): nat
    requires j <= l <= |steps|
  {
    if j == l then 0 else RequestsOf(steps, j, l - 1, t) + if steps[l - 1] == MakeRequest(t) then 1 else 0
  }

  lemma StepRequested<D, O, R>(act: Act<D, O, R>, s: State<D, O, R>, step: Step<O>, t: Tid)
    requires Enabled(s, step) && Safe(s, step) && t in s.places && s.places[t] != Outside && step != Return(t)
    ensures var s' := Next(act, s, step);
            && t in s'.places && s'.places[t] != Outside
            && Requested(s'.places[t]) == (Requested(s.places[t]) || step == MakeRequest(t))
            && (step == MakeRequest(t) ==> !Requested(s.places[t]))
  {
  }

  /** In a call the thread has made its request, and made it once, exactly if it is past the place for it. */
  lemma {:induction false} OneRequestPerCall<D, O, R>(act: Act<D, O, R>, states: seq<State<D, O, R>>,
                                                      steps: seq<Step<O>>,
                                                      j: nat, l: nat, t: Tid)
    requires IsRun(act, states, steps) && SameCall(steps, j, l, t)
    ensures t in states[l].places && states[l].places[t] != Outside
    ensures RequestsOf(steps, j, l, t) == if Requested(states[l].places[t]) then 1 else 0
    decreases l
  {
    if j + 1 < l {
      OneRequestPerCall(act, states, steps, j, l - 1, t);
      CallGoesOn(act, states, steps, l - 1, t);
    } else {
      CallBegins(act, states, steps, j, t);
    }
  }

  lemma CallBegins<D, O, R>(act: Act<D, O, R>, states: seq<State<D, O, R>>, steps: seq<Step<O>>, j: nat, t: Tid)
    requires IsRun(act, states, steps) && j < |steps| && steps[j].Enter? && steps[j].t == t
    ensures t in states[j + 1].places && states[j + 1].places[t].AtLock? && RequestsOf(steps, j, j + 1, t) == 0
  {
    var s, step := RunState(act, states, steps, j);
    assert RequestsOf(steps, j, j, t) == 0;
  }

  lemma CallGoesOn<D, O, R>(act: Act<D, O, R>, states: seq<State<D, O, R>>, steps: seq<Step<O>>, l: nat, t: Tid)
    requires IsRun(act, states, steps) && l < |steps| && steps[l] != Return(t)
    requires t in states[l].places && states[l].places[t] != Outside
    ensures t in states[l + 1].places && states[l + 1].places[t] != Outside
    ensures Requested(states[l + 1].places[t]) == (Requested(states[l].places[t]) || steps[l] == MakeRequest(t))
    ensures steps[l] == MakeRequest(t) ==> !Requested(states[l].places[t])
  {
    var s, step := RunState(act, states, steps, l);
    StepRequested(act, s, step, t);
  }

  /** A call that returns has made one request, with the operation it was called with. */
  lemma ReturnedCallRequestedOnce<D, O, R>(act: Act<D, O, R>, states: seq<State<D, O, R>>, steps: seq<Step<O>>,
                                           j: nat, l: nat, t: Tid)
    requires IsRun(act, states, steps) && SameCall(steps, j, l, t) && l < |steps| && steps[l] == Return(t)
    ensures RequestsOf(steps, j, l, t) == 1
    ensures var p := states[l].places[t];
            && p.c.op == steps[j].op && |states[j].log| <= p.at < |states[l].log|
            && Names(states[l].log)[p.at] == (t, steps[j].op)
  {
    OneRequestPerCall(act, states, steps, j, l, t);
    CallRemembered(act, states, steps, j, l, t);
    var s, step := RunState(act, states, steps, l);
    assert CallAt(s, t);
  }
}
