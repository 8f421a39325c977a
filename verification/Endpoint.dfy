/** The endpoint of a stored route: what it does with an idempotency key before and after the
    execution. */
module Endpoint {
  import opened Wrappers
  import opened IsoTime
  import I = Idempotency
  import E = Execution

  datatype Admission = Rejected | Proceeds(record: Option<nat>)

  /** A key is used by requests other than GET that send one that is not empty. */
  method Admit(records: I.Records, accessKey: nat, httpMethod: string, route: string, key: Option<string>,
               payload: nat, now: Time, expires: Time, newId: nat, grant: nat)
    returns (a: Admission)
    requires I.OnePerScope(records.table) && newId !in I.Live(records.table, now)
    modifies records
    ensures httpMethod == "GET" || key.None? || key.value == "" ==>
              a == Proceeds(None) && records.table == old(records.table)
    ensures httpMethod != "GET" && key.Some? && key.value != "" ==>
              var scope := I.Scope(accessKey, httpMethod, route, key.value);
              var (table, d) := I.Begin(old(records.table), scope, payload, now, expires, newId, grant);
              && records.table == table
              && a == if d.Granted? then Proceeds(Some(newId)) else Rejected
  {
    var idempotency: Option<nat> := None;
    if httpMethod != "GET" && key.Some? && key.value != "" {
      var d := records.BeginRequest(I.Scope(accessKey, httpMethod, route, key.value), payload, now, expires, newId, grant);
      if !d.Granted? {
        return Rejected;
      }
      idempotency := Some(d.id);
    }
    return Proceeds(idempotency);
  }

  /** What the requester is told: the status of the response. */
  function Answer(ending: E.Ending, completed: bool): nat {
    match ending
    case Returned => if completed then 200 else 500
    case RaisedCapacity => 429
    case RaisedTimeout => 504
    case RaisedCanceled => 409
    case RaisedError => 500
  }

  /** The endpoint's calls are the steps of the protocol: a request that returned succeeds, recorded or
      not; every other ending gives the grant up. */
  function StepOf(g: nat, ending: E.Ending, storeFails: bool): I.Event {
    if ending != E.Returned then I.GiveUp(g) else if storeFails then I.SucceedUnrecorded(g) else I.Succeed(g)
  }

  /** What such a step does to the table. */
  lemma {:induction false} ConcludeIsAStep(w: I.World, g: nat, ending: E.Ending, storeFails: bool)
    requires g < |w.holders| && w.holders[g].phase == I.Open
    ensures var id := w.holders[g].id;
            I.Next(w, StepOf(g, ending, storeFails)).table
            == if ending == E.Returned && storeFails then w.table
               else if ending == E.Returned then I.Complete(w.table, id)
               else I.Abandon(w.table, id)
  {
  }

  /** After the execution. `storeFails` is a completion that raises before it reaches the table. It is
      a step of the protocol, whichever open request holds the record. */
  method Conclude(records: I.Records, record: Option<nat>, ending: E.Ending, storeFails: bool) returns (status: nat)
    modifies records
    ensures status == Answer(ending, record.None? || (!storeFails && I.IsRunning(old(records.table), record.value)))
    ensures records.table
            == if record.None? || (ending == E.Returned && storeFails) then old(records.table)
               else if ending == E.Returned then I.Complete(old(records.table), record.value)
               else I.Abandon(old(records.table), record.value)
    ensures forall w: I.World, g: nat |
              w.table == old(records.table) && g < |w.holders| && w.holders[g].phase == I.Open
              && record == Some(w.holders[g].id) ::
                records.table == I.Next(w, StepOf(g, ending, storeFails)).table
  {
    forall w: I.World, g: nat | g < |w.holders| && w.holders[g].phase == I.Open
      ensures I.Next(w, StepOf(g, ending, storeFails)).table
              == if ending == E.Returned && storeFails then w.table
                 else if ending == E.Returned then I.Complete(w.table, w.holders[g].id)
                 else I.Abandon(w.table, w.holders[g].id)
    {
      ConcludeIsAStep(w, g, ending, storeFails);
    }
    var executionSucceeded := false;
    status := 500;
    match ending {
      case Returned =>
        executionSucceeded := true;
        if record.None? {
          return 200;
        }
        if !storeFails {
          var done := records.CompleteRequest(record.value);
          if done {
            return 200;
          }
        }
      case RaisedCapacity => status := 429;
      case RaisedTimeout => status := 504;
      case RaisedCanceled => status := 409;
      case RaisedError => status := 500;
    }
    if record.Some? && !executionSucceeded {
      records.AbandonRequest(record.value);
    }
  }
}
