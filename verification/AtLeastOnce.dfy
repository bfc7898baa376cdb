/**
  From delivery to results: over every run of the delivery protocol, the rows of the warehouse are the
  rows of the objects that arrived, some of them more than once, and so what the results queries count
  by identities does not depend on crashes, retries or overlapping workers.
 */
module AtLeastOnce {
  import opened DeliveryProtocol
  import Q = ResultsQuery
  import E = ExposureCounts

  /** The protocol with the table its inserts write to. */
  datatype World = World(state: State, table: seq<Q.Event>)

  /** A step, with the rows that it made reach the table. */
  datatype Action = Action(step: Step, landed: seq<Q.Event>)

  const START := World(INIT, [])

  /**
    What may reach the table: of an insert, only rows of the object, and all of them if the warehouse
    says that they are written. An insert that fails, or whose answer is lost, may have written some.
   */
  predicate Possible(w: World, a: Action, rowsOf: Body -> seq<Q.Event>)
  {
    match a.step
    case Insert(worker, reply) =>
      (match PcOf(w.state, worker)
       case Fetched(_, body, _) =>
         (forall m :: m in a.landed ==> m in rowsOf(body)) && (reply.Written? ==> a.landed == rowsOf(body))
       case _ => a.landed == [])
    case _ => a.landed == []
  }

  function Act(w: World, a: Action): World
  {
    World(Apply(w.state, a.step), w.table + a.landed)
  }

  function ActAll(w: World, actions: seq<Action>): World
    decreases |actions|
  {
    if actions == [] then w else ActAll(Act(w, actions[0]), actions[1..])
  }

  predicate AllPossible(w: World, actions: seq<Action>, rowsOf: Body -> seq<Q.Event>)
    decreases |actions|
  {
    actions == [] || (Possible(w, actions[0], rowsOf) && AllPossible(Act(w, actions[0]), actions[1..], rowsOf))
  }

  function Steps(actions: seq<Action>): seq<Step>
  {
    if actions == [] then [] else [actions[0].step] + Steps(actions[1..])
  }

  /** Without the table it is a run of the protocol. */
  lemma {:induction false} ActionsAreSteps(w: World, actions: seq<Action>)
    ensures ActAll(w, actions).state == Exec(w.state, Steps(actions))
    decreases |actions|
  {
    if actions != [] {
      ActionsAreSteps(Act(w, actions[0]), actions[1..]);
      assert Steps(actions)[1..] == Steps(actions[1..]);
    }
  }

  // ----- What the table holds -----

  /** A row of some object that arrived. */
  ghost predicate HasArrived(s: State, m: Q.Event, rowsOf: Body -> seq<Q.Event>)
  {
    exists p :: p in s.arrived && m in rowsOf(s.arrived[p])
  }

  ghost predicate OnlyArrived(w: World, rowsOf: Body -> seq<Q.Event>)
  {
    forall m :: m in w.table ==> HasArrived(w.state, m, rowsOf)
  }

  /** The rows of every object that was answered for as delivered are there. */
  ghost predicate AllDelivered(w: World, rowsOf: Body -> seq<Q.Event>)
  {
    forall p, body, n, m :: (p, body, Delivered(n)) in w.state.answers && m in rowsOf(body) ==> m in w.table
  }

  ghost predicate TableInv(w: World, rowsOf: Body -> seq<Q.Event>)
  {
    Inv(w.state) && OnlyArrived(w, rowsOf) && AllDelivered(w, rowsOf)
  }

  lemma LandedHasArrived(w: World, a: Action, rowsOf: Body -> seq<Q.Event>, m: Q.Event)
    requires Inv(w.state) && Possible(w, a, rowsOf) && m in a.landed
    ensures HasArrived(w.state, m, rowsOf)
  {
    var pc := PcOf(w.state, a.step.w);
    assert PcOk(w.state, pc);
    assert pc.path in w.state.arrived && m in rowsOf(w.state.arrived[pc.path]);
  }

  lemma ActionKeepsArrived(w: World, a: Action, rowsOf: Body -> seq<Q.Event>)
    requires TableInv(w, rowsOf) && Possible(w, a, rowsOf)
    ensures OnlyArrived(Act(w, a), rowsOf)
  {
    var t := Act(w, a);
    StepGrows(w.state, a.step);
    forall m | m in t.table ensures HasArrived(t.state, m, rowsOf) {
      if m in a.landed {
        LandedHasArrived(w, a, rowsOf, m);
      }
      var p :| p in w.state.arrived && m in rowsOf(w.state.arrived[p]);
      assert p in t.state.arrived && t.state.arrived[p] == w.state.arrived[p];
    }
  }

  lemma OnlyInsertsAnswer(s: State, step: Step)
    ensures !step.Insert? ==> Apply(s, step).answers == s.answers
  {
  }

  lemma ActionKeepsDelivered(w: World, a: Action, rowsOf: Body -> seq<Q.Event>)
    requires TableInv(w, rowsOf) && Possible(w, a, rowsOf)
    ensures AllDelivered(Act(w, a), rowsOf)
  {
    OnlyInsertsAnswer(w.state, a.step);
    if a.step.Insert? && PcOf(w.state, a.step.w).Fetched? {
      var body := PcOf(w.state, a.step.w).body;
      assert Settle(a.step.reply).Some? && Settle(a.step.reply).value.Delivered? ==> a.landed == rowsOf(body);
    }
  }

  lemma {:induction false} RunKeepsTable(w: World, actions: seq<Action>, rowsOf: Body -> seq<Q.Event>)
    requires TableInv(w, rowsOf) && AllPossible(w, actions, rowsOf)
    ensures TableInv(ActAll(w, actions), rowsOf)
    decreases |actions|
  {
    if actions != [] {
      StepKeepsObjects(w.state, actions[0].step);
      StepKeepsWorkers(w.state, actions[0].step);
      ActionKeepsArrived(w, actions[0], rowsOf);
      ActionKeepsDelivered(w, actions[0], rowsOf);
      RunKeepsTable(Act(w, actions[0]), actions[1..], rowsOf);
    }
  }

  /**
    At any point of any run: every row of the table is a row of an object that arrived, and every row of
    an archived object is in the table.
   */
  lemma TableBetween(actions: seq<Action>, rowsOf: Body -> seq<Q.Event>, m: Q.Event)
    requires AllPossible(START, actions, rowsOf)
    ensures var w := ActAll(START, actions);
            && (m in w.table ==> HasArrived(w.state, m, rowsOf))
            && forall p :: p in w.state.bucket.archive && m in rowsOf(w.state.bucket.archive[p]) ==> m in w.table
  {
    RunKeepsTable(START, actions, rowsOf);
    var w := ActAll(START, actions);
    forall p | p in w.state.bucket.archive && m in rowsOf(w.state.bucket.archive[p]) ensures m in w.table {
      assert Holds(w.state, w.state.bucket.archive, p) && WasInserted(w.state, p);
      var n: nat :| Backed(w.state, p, Delivered(n));
    }
  }

  /** Nothing is left to deliver and nothing was rejected. */
  ghost predicate AllArchived(s: State)
  {
    forall p :: p in s.arrived ==> p in s.bucket.archive
  }

  /** The rows of the objects that arrived, in some order and in any number of copies. */
  ghost predicate Lists(rows: seq<Q.Event>, s: State, rowsOf: Body -> seq<Q.Event>)
  {
    forall m :: m in rows <==> HasArrived(s, m, rowsOf)
  }

  lemma SameMembersSameRows(a: seq<Q.Event>, b: seq<Q.Event>)
    requires forall m :: m in a <==> m in b
    ensures E.Rows(a) == E.Rows(b)
  {
    forall m ensures m in E.Rows(a) <==> m in E.Rows(b) {
      assert m in E.Rows(a) <==> m in a;
      assert m in E.Rows(b) <==> m in b;
    }
  }

  /** Once everything is archived, the table has exactly the rows that arrived, up to copies and order. */
  lemma TableIsArrived(actions: seq<Action>, rowsOf: Body -> seq<Q.Event>, arrived: seq<Q.Event>)
    requires AllPossible(START, actions, rowsOf)
    requires AllArchived(ActAll(START, actions).state) && Lists(arrived, ActAll(START, actions).state, rowsOf)
    ensures E.Rows(ActAll(START, actions).table) == E.Rows(arrived)
  {
    var w := ActAll(START, actions);
    RunKeepsTable(START, actions, rowsOf);
    forall m ensures m in w.table <==> m in arrived {
      TableBetween(actions, rowsOf, m);
      if HasArrived(w.state, m, rowsOf) {
        var p :| p in w.state.arrived && m in rowsOf(w.state.arrived[p]);
        assert Holds(w.state, w.state.bucket.archive, p);
      }
    }
    SameMembersSameRows(w.table, arrived);
  }

  /**
    However workers overlapped, crashed and delivered objects again: the size of every variant and every
    occurrence metric are those of the rows that arrived.
   */
  lemma ResultsAreOfArrivedRows(actions: seq<Action>, rowsOf: Body -> seq<Q.Event>, arrived: seq<Q.Event>,
                                p: Q.Params, specs: seq<Q.MetricSpec>, number: string -> real, variant: string, i: nat)
    requires AllPossible(START, actions, rowsOf)
    requires AllArchived(ActAll(START, actions).state) && Lists(arrived, ActAll(START, actions).state, rowsOf)
    requires i < |specs| && (specs[i].event != "" || p.windowStart > 0)
    ensures var table := ActAll(START, actions).table;
            && Q.QueryStats(table, p, specs, number, variant, i).n ==
               Q.QueryStats(arrived, p, specs, number, variant, i).n
            && (specs[i].aggregation == Q.Occurrence ==>
                  Q.QueryStats(table, p, specs, number, variant, i) ==
                      Q.QueryStats(arrived, p, specs, number, variant, i))
  {
    TableIsArrived(actions, rowsOf, arrived);
    E.CopiesDoNotMatter(ActAll(START, actions).table, arrived, p, specs, number, variant, i);
  }
}
