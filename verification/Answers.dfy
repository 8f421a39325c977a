/** What the status of a response says about the execution behind it. */
module Answers {
  import opened Wrappers
  import H = History
  import E = Execution
  import X = ExecutionTheorems
  import Inv = ExecutionInvariant
  import Endpoint

  /** An answer and the execution agree. */
  predicate TellsTruth(status: nat, s: E.State, id: H.Id, completed: bool)
    requires id in s.execs
  {
    var e := s.execs[id];
    && (status == 200 ==> completed && (e.committed <==> e.writes) && e.task == E.Ended(E.Returned))
    && (status == 429 ==> e.job == E.Absent && !e.committed)
    && (status == 409 ==> e.canceled && !e.committed && (id in s.history ==> s.history[id].status == H.Canceled))
    && (status == 500 ==>
          || (e.task == E.Ended(E.Returned) && !completed)
          || ((e.committed <==> e.lost) && (id in s.history ==> s.history[id].status == H.Failed)))
    && (id in s.history && s.history[id].status == H.TimedOut ==> status == 504)
    && (status == 504 ==> e.task == E.Ended(E.RaisedTimeout))
    && status in {200, 409, 429, 500, 504}
  }

  /** Main result. A success is reported only for an execution that returned, and then a write has
      committed; a lack of capacity only for one that never ran; a cancellation only for one that was
      canceled and did not commit; and a recorded timeout is reported as one. */
  lemma AnswersTellTruth(cfg: E.Config, events: seq<E.Event>, id: H.Id, completed: bool)
    requires cfg.Valid()
    requires var s := E.Run(cfg, E.Initial(cfg), events); id in s.execs && s.execs[id].task.Ended?
    ensures var s := E.Run(cfg, E.Initial(cfg), events);
            TellsTruth(Endpoint.Answer(s.execs[id].task.ending, completed), s, id, completed)
  {
    X.StatusIsTruthful(cfg, events, id);
  }
}
