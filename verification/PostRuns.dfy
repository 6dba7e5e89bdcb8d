/** The post office counted along whole runs: packets that arrive, steps of the worker, mail that readers get. */
module PostHistory {
  import opened Sequences
  import opened PostOffice

  /** The packets that reach the socket in the first i steps. */
  function Arrivals(steps: seq<Step>, i: nat): seq<Wire>
    requires i <= |steps|
  {
    if i == 0 then [] else Arrivals(steps, i - 1) + match steps[i - 1] case Arrive(w) => [w] case _ => []
  }

  /** How often the worker has put mail into a box. */
  function Puts(steps: seq<Step>, i: nat): nat
    requires i <= |steps|
  {
    if i == 0 then 0 else Puts(steps, i - 1) + if steps[i - 1] == Step.Put then 1 else 0
  }

  /** The mail a reader of the box gets in the step, if it is one. */
  function Got(s: State, step: Step, box: nat): seq<Mail> {
    if step == Get(box) && box < |s.boxes| && s.boxes[box] != [] then [s.boxes[box][0]] else []
  }

  /** The mail that readers of a box have got in the first i steps. */
  function Gots(states: seq<State>, steps: seq<Step>, i: nat, box: nat): seq<Mail>
    requires i <= |steps| <= |states|
  {
    if i == 0 then [] else Gots(states, steps, i - 1, box) + Got(states[i - 1], steps[i - 1], box)
  }

  /** A state of a run and the step taken there. */
  lemma RunState(states: seq<State>, steps: seq<Step>, i: nat) returns (s: State, step: Step)
    requires IsRun(states, steps) && i < |steps|
    ensures s == states[i] && step == steps[i] && Inv(s)
    ensures Enabled(s, step) && Allowed(s, step) && Safe(s, step) && states[i + 1] == Next(s, step)
  {
    EveryRun(states, steps, i);
    s, step := states[i], steps[i];
  }

  lemma StepHistory(s: State, step: Step, box: nat)
    requires Inv(s) && Enabled(s, step) && Safe(s, step) && box < |s.boxes|
    ensures var s' := Next(s, step);
            && s'.host == s.host && |s'.boxes| == |s.boxes| && |s'.taken| == |s.taken|
            && s'.arrived == s.arrived + (match step case Arrive(w) => [w] case _ => [])
            && s'.delivered == s.delivered + (if step == Step.Put then 1 else 0)
            && s'.taken[box] == s.taken[box] + Got(s, step, box)
  {
  }

  lemma {:induction false} CountedAlong(states: seq<State>, steps: seq<Step>, i: nat, box: nat)
    requires IsRun(states, steps) && i <= |steps| && box < |states[0].boxes|
    ensures |states[i].boxes| == |states[0].boxes| == |states[i].taken| && states[i].host == states[0].host
    ensures states[i].arrived == Arrivals(steps, i) && states[i].delivered == Puts(steps, i)
    ensures states[i].taken[box] == Gots(states, steps, i, box)
  {
    if i > 0 {
      CountedAlong(states, steps, i - 1, box);
      var s, step := RunState(states, steps, i - 1);
      StepHistory(s, step, box);
    }
  }

  /** Each packet that has arrived is delivered once, in order: what the readers of a box have got, followed by what
      is in the box, is the mail for it among the packets that arrived first, one for each time the worker has put
      mail. */
  lemma MailArrives(states: seq<State>, steps: seq<Step>, i: nat, box: nat)
    requires IsRun(states, steps) && i <= |steps| && box < |states[0].boxes|
    ensures Puts(steps, i) <= |Arrivals(steps, i)| && |states[i].boxes| == |states[0].boxes|
    ensures forall w | w in Arrivals(steps, i) :: Proper(w, states[0].host, |states[0].boxes|)
    ensures Gots(states, steps, i, box) + states[i].boxes[box]
         == MailFor(Arrivals(steps, i)[..Puts(steps, i)], box, states[0].host, |states[0].boxes|)
  {
    CountedAlong(states, steps, i, box);
    EveryRun(states, steps, i);
  }

  // ---- progress -------------------------------------------------------------

  /** A poll, or a step of the worker, that moves a packet on. */
  predicate Moves(s: State, step: Step) {
    Enabled(s, step) && (step == PassP || step == Receive || step == Step.Put || (step == CallBack && WillRead(s)))
  }

  /** How many such steps the packets still under way need: a poll, the passing of P, Receive and the mailbox. */
  function Work(s: State): nat {
    4 * |s.socket| + 3 * s.available
    + match s.worker case Waiting => 0 case Called => 2 case Carrying(_) => 1
  }

  /** No packet is stuck: every step that moves one leaves one less to do, others leave the work alone, a new packet
      needs four, and as long as there is work such a step can be taken.  With none left all has been delivered. */
  lemma NothingStuck(s: State, step: Step)
    requires Inv(s) && Enabled(s, step) && Safe(s, step)
    ensures Work(Next(s, step)) == Work(s) + (if step.Arrive? then 4 else 0) - (if Moves(s, step) then 1 else 0)
    ensures Work(s) > 0 ==> Moves(s, PassP) || Moves(s, Receive) || Moves(s, Step.Put) || Moves(s, CallBack)
    ensures Work(s) == 0 <==> s.delivered == |s.arrived|
  {
  }
}
