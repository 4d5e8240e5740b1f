/** The marks of outstanding scale-out requests over runs of quota updates. */
module QuotaWatcherRuns {
  import opened Common
  import opened Quantities
  import opened ResourceQuotas
  import opened ScalerPolicies
  import opened PodDemand
  import opened QuotaPipeline
  import opened Pods
  import opened QuotaWatcher

  // ----- The marks of a run, from the facts of its calls -----

  function MarksAt(run: seq<Facts>, n: nat): set<string>
    requires n <= |run|
  {
    if n == 0 then {} else Moved(MarksAt(run, n - 1), run[n - 1])
  }

  predicate SendsAt(run: seq<Facts>, i: nat)
    requires i < |run|
  {
    Sends(MarksAt(run, i), run[i])
  }

  /** A call of this namespace at `i` was short of room, found none by polling and still saw the need on its way out;
      and every call of the namespace since still saw the need. */
  ghost predicate NeedLasts(run: seq<Facts>, namespace: string, i: nat, n: nat)
    requires n <= |run|
  {
    && i < n && run[i].namespace == namespace && run[i].short && !run[i].room && run[i].needs
    && forall k :: i < k < n && run[k].namespace == namespace ==> run[k].needs
  }

  lemma OthersKeepMark(run: seq<Facts>, namespace: string, n: nat)
    requires n < |run| && run[n].namespace != namespace
    ensures namespace in MarksAt(run, n + 1) <==> namespace in MarksAt(run, n)
  {}

  /** What a call does to the mark of its own namespace: short of room it sets it, without need it clears it. */
  lemma OwnCallMoves(run: seq<Facts>, n: nat)
    requires n < |run| && run[n].namespace != ""
    ensures var f := run[n];
            f.namespace in MarksAt(run, n + 1) <==>
              f.needs && (f.namespace in MarksAt(run, n) || (f.short && !f.room))
  {}

  /** A namespace is marked if and only if some call of it was short of room, found none by polling and left with the
      need, and no call of it since left without. */
  lemma {:induction false} MarkedExactly(run: seq<Facts>, namespace: string, n: nat)
    requires namespace != "" && n <= |run|
    ensures namespace in MarksAt(run, n) <==> exists i: nat :: NeedLasts(run, namespace, i, n)
  {
    if n > 0 {
      MarkedExactly(run, namespace, n - 1);
      if run[n - 1].namespace == namespace {
        OwnCallMoves(run, n - 1);
      } else {
        OthersKeepMark(run, namespace, n - 1);
      }
      if namespace in MarksAt(run, n) {
        if namespace in MarksAt(run, n - 1) {
          var i: nat :| NeedLasts(run, namespace, i, n - 1);
          assert NeedLasts(run, namespace, i, n);
        } else {
          assert NeedLasts(run, namespace, n - 1, n);
        }
      }
      if i: nat :| NeedLasts(run, namespace, i, n) {
        assert i < n - 1 ==> NeedLasts(run, namespace, i, n - 1);
      }
    }
  }

  /** A call sends a request if and only if it is short of room and no earlier need of its namespace lasts: a second
      request is sent exactly when some call in between left without a need, or a poll found room. */
  lemma SendsExactly(run: seq<Facts>, j: nat)
    requires j < |run| && run[j].namespace != ""
    ensures SendsAt(run, j) <==> run[j].short && !exists i: nat :: NeedLasts(run, run[j].namespace, i, j)
  {
    MarkedExactly(run, run[j].namespace, j);
  }

  /** Between two requests of a namespace one of its own calls leaves without a need, or polling found room for the
      first. */
  lemma RequestsAreSeparated(run: seq<Facts>, namespace: string, i: nat, j: nat) returns (k: nat)
    requires namespace != "" && i < j < |run|
    requires run[i].namespace == namespace && SendsAt(run, i)
    requires run[j].namespace == namespace && SendsAt(run, j)
    ensures i <= k < j && run[k].namespace == namespace && (!run[k].needs || (k == i && run[k].room))
  {
    SendsExactly(run, j);
    assert !NeedLasts(run, namespace, i, j);
    if run[i].room || !run[i].needs {
      k := i;
    } else {
      k :| i < k < j && run[k].namespace == namespace && !run[k].needs;
    }
  }

  // ----- The marks the watcher holds -----

  /** The facts of each call. */
  ghost predicate Describes(run: seq<Facts>, handler: bool, turns: seq<Turn>) {
    && |run| == |turns|
    && forall i {:trigger FactsOf(handler, turns[i])} :: 0 <= i < |turns| ==> run[i] == FactsOf(handler, turns[i])
  }

  method TakeTurn(watcher: Watcher, turns: seq<Turn>, i: nat, ghost run: seq<Facts>) returns (sent: bool)
    requires Describes(run, watcher.handler, turns) && i < |turns| && watcher.Valid()
    modifies watcher
    ensures watcher.Valid()
    ensures sent <==> Sends(old(watcher.pending), run[i])
    ensures watcher.pending == Moved(old(watcher.pending), run[i])
  {
    var _, now := watcher.UpdateQuotaIfRequired(turns[i]);
    sent := now;
  }

  /** Calls one after the other, from a fresh watcher: its marks are those of the facts, and a call sends a request
      exactly when they say so. */
  method RunUpdates(handler: bool, turns: seq<Turn>, ghost run: seq<Facts>) returns (watcher: Watcher, sent: seq<bool>)
    requires Describes(run, handler, turns)
    ensures watcher.pending == MarksAt(run, |run|)
    ensures |sent| == |run| && forall i :: 0 <= i < |run| ==> sent[i] == SendsAt(run, i)
  {
    watcher := new Watcher(handler);
    sent := [];
    for i := 0 to |turns|
      invariant fresh(watcher) && watcher.handler == handler && watcher.Valid()
      invariant watcher.pending == MarksAt(run, i)
      invariant |sent| == i && forall k :: 0 <= k < i ==> sent[k] == SendsAt(run, k)
    {
      var now := TakeTurn(watcher, turns, i, run);
      sent := sent + [now];
    }
  }

  // ----- A request that is forgotten -----

  const POLICY_FREE := Scaler(Bounds(100, 1000, 100, 1000), [], [])
  const NEVER: Rounding := (u: int, h: int) => 0
  const ONE_POD := Demand(Just(1, 1), Just(1, 1))
  const SHORT_JOB := Job("ns", NEVER, POLICY_FREE, Quota(map[], Some(map[]), Some(map[])), Some(ONE_POD))
  const SHORT := Turn(SHORT_JOB, true, None, [], Some(ONE_POD), None)
  const QUIET := Turn(SHORT_JOB.(demand := None), true, None, [], None, None)

  lemma ShortFacts()
    ensures FactsOf(true, SHORT) == Facts("ns", true, false, true)
  {
    ShortDesired();
    assert Read(map[]) == NOTHING;
    assert !Fits(None, Waiting(Some(ONE_POD)));
    assert StillNeeds(SHORT);
  }

  lemma ShortDesired()
    ensures DesiredOf(SHORT_JOB) == Amounts(100, 100, 100, 100, 0)
  {
    assert Read(map[]) == NOTHING;
    assert Scaled(NEVER, POLICY_FREE, map[], map[]) == NOTHING;
  }

  lemma QuietFacts()
    ensures FactsOf(true, QUIET).namespace == "ns" && !FactsOf(true, QUIET).short && !FactsOf(true, QUIET).needs
  {
    QuietUpdateNeedsNothing(QUIET.job, None);
  }

  /** An update that reads no events finds no need and clears the mark of an outstanding request, so the same shortage
      sends a second one. */
  lemma QuietTurnForgetsRequest(run: seq<Facts>)
    requires Describes(run, true, [SHORT, QUIET, SHORT])
    ensures SendsAt(run, 0) && "ns" in MarksAt(run, 1) && !run[1].needs && "ns" !in MarksAt(run, 2) && SendsAt(run, 2)
  {
    ShortFacts();
    QuietFacts();
    var turns := [SHORT, QUIET, SHORT];
    assert FactsOf(true, turns[0]) == run[0] && FactsOf(true, turns[1]) == run[1] && FactsOf(true, turns[2]) == run[2];
    ForgottenRequest(run);
  }

  lemma ForgottenRequest(run: seq<Facts>)
    requires |run| == 3 && run[0] == Facts("ns", true, false, true) && run[2] == run[0]
    requires run[1].namespace == "ns" && !run[1].short && !run[1].needs
    ensures SendsAt(run, 0) && "ns" in MarksAt(run, 1) && !run[1].needs && "ns" !in MarksAt(run, 2) && SendsAt(run, 2)
  {
    assert MarksAt(run, 0) == {};
    assert MarksAt(run, 1) == Moved(MarksAt(run, 0), run[0]);
    assert MarksAt(run, 2) == Moved(MarksAt(run, 1), run[1]);
  }
}
