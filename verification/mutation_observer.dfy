/** The MutationObserver polyfill (webcomponents-lite.js:678-910): how one mutation, seen by many registrations on the
    target and its ancestors, becomes at most one record in each observer's queue. */
module MutationObserver {
  import opened Options

  class Node {
    var parentNode: Node?
    var previousSibling: Node?
    var nextSibling: Node?
  }

  /** What an observer asked for when it registered; the filter lists names and namespaces. */
  datatype ObserverInit = ObserverInit(
    childList: bool,
    attributes: bool,
    characterData: bool,
    subtree: bool,
    attributeOldValue: bool,
    characterDataOldValue: bool,
    attributeFilter: seq<string>)

  datatype Event =
    | AttrModified(target: Node, name: string, namespace: Option<string>, addition: bool, prevValue: string)
    | CharacterDataModified(target: Node, prevValue: string)
    | NodeInserted(target: Node, relatedNode: Node)
    | NodeRemoved(target: Node, relatedNode: Node)

  datatype Kind = Attributes | CharacterData | ChildList

  class MutationRecord {
    var kind: Kind
    var target: Node?
    var addedNodes: seq<Node>
    var removedNodes: seq<Node>
    var previousSibling: Node?
    var nextSibling: Node?
    var attributeName: Option<string>
    var attributeNamespace: Option<string>
    var oldValue: Option<string>

    constructor (kind: Kind, target: Node?)
      ensures this.kind == kind && this.target == target && addedNodes == removedNodes == []
      ensures previousSibling == nextSibling == null && attributeName == attributeNamespace == oldValue == None
    {
      this.kind, this.target := kind, target;
      addedNodes, removedNodes, previousSibling, nextSibling := [], [], null, null;
      attributeName, attributeNamespace, oldValue := None, None, None;
    }

    /** The whole record of an event; `withOld` when the previous value was asked for. */
    ghost predicate Tells(ev: Event, withOld: bool)
      reads this, ev.target
    {
      match ev
      case AttrModified(t, name, namespace, addition, prevValue) =>
        && kind == Attributes && target == t && attributeName == Some(name) && attributeNamespace == namespace
        && addedNodes == [] && removedNodes == [] && previousSibling == null && nextSibling == null
        && oldValue == if withOld && !addition then Some(prevValue) else None
      case CharacterDataModified(t, prevValue) =>
        && kind == CharacterData && target == t && attributeName == None && attributeNamespace == None
        && addedNodes == [] && removedNodes == [] && previousSibling == null && nextSibling == null
        && oldValue == if withOld then Some(prevValue) else None
      case NodeInserted(t, _) =>
        && kind == ChildList && target == t.parentNode && addedNodes == [t] && removedNodes == []
        && previousSibling == t.previousSibling && nextSibling == t.nextSibling
        && attributeName == None && attributeNamespace == None && oldValue == None
      case NodeRemoved(t, _) =>
        && kind == ChildList && target == t.parentNode && addedNodes == [] && removedNodes == [t]
        && previousSibling == t.previousSibling && nextSibling == t.nextSibling
        && attributeName == None && attributeNamespace == None && oldValue == None
    }

    /** Everything but the old value is what the event says. */
    ghost predicate Describes(ev: Event)
      reads this, ev.target
    {
      match ev
      case AttrModified(t, name, namespace, _, _) =>
        kind == Attributes && target == t && attributeName == Some(name) && attributeNamespace == namespace
        && addedNodes == removedNodes == [] && previousSibling == nextSibling == null
      case CharacterDataModified(t, _) =>
        kind == CharacterData && target == t && attributeName == attributeNamespace == None
        && addedNodes == removedNodes == [] && previousSibling == nextSibling == null
      case NodeInserted(t, _) =>
        kind == ChildList && target == t.parentNode && attributeName == attributeNamespace == None
        && addedNodes == [t] && removedNodes == [] && previousSibling == t.previousSibling && nextSibling == t.nextSibling
      case NodeRemoved(t, _) =>
        kind == ChildList && target == t.parentNode && attributeName == attributeNamespace == None
        && addedNodes == [] && removedNodes == [t] && previousSibling == t.previousSibling && nextSibling == t.nextSibling
    }
  }

  class Observer {
    var records: seq<MutationRecord>
    var nodes: seq<Node>

    constructor ()
      ensures records == [] && nodes == []
    {
      records, nodes := [], [];
    }

    method TakeRecords() returns (queue: seq<MutationRecord>)
      modifies this`records
      ensures queue == old(records) && records == []
    {
      queue := records;
      records := [];
    }
  }

  class Registration {
    const observer: Observer
    const target: Node
    var options: ObserverInit

    constructor (observer: Observer, target: Node, options: ObserverInit)
      ensures this.observer == observer && this.target == target && this.options == options
    {
      this.observer, this.target, this.options := observer, target, options;
    }
  }

  // ---------------------------------------------------------------- what an event asks of a registration

  predicate Matches(ev: Event, options: ObserverInit) {
    match ev
    case AttrModified(_, name, namespace, _, _) =>
      options.attributes && (options.attributeFilter == [] || name in options.attributeFilter
                             || (namespace.Some? && namespace.value in options.attributeFilter))
    case CharacterDataModified(_, _) => options.characterData
    case _ => options.childList
  }

  predicate AsksOld(ev: Event, options: ObserverInit) {
    match ev
    case AttrModified(_, _, _, _, _) => options.attributeOldValue
    case CharacterDataModified(_, _) => options.characterDataOldValue
    case _ => false
  }

  function OldValue(ev: Event): Option<string> {
    match ev
    case AttrModified(_, _, _, addition, prevValue) => if addition then None else Some(prevValue)
    case CharacterDataModified(_, prevValue) => Some(prevValue)
    case _ => None
  }

  /** The node where the walk towards the root starts. */
  function StartNode(ev: Event): Node {
    match ev
    case AttrModified(t, _, _, _, _) => t
    case CharacterDataModified(t, _) => t
    case NodeInserted(_, related) => related
    case NodeRemoved(_, related) => related
  }

  // ---------------------------------------------------------------- the walk from a node to its root

  /** The node and its ancestors, in order. */
  ghost predicate IsPath(node: Node?, path: seq<Node>)
    reads path
    decreases |path|
  {
    if path == [] then node == null else node == path[0] && IsPath(path[0].parentNode, path[1..])
  }

  /** A registration met on the way, as it stands then; `own` when it is on the start node itself. */
  datatype Visit = Visit(observer: Observer, options: ObserverInit, own: bool)

  type Table = map<Node, seq<Registration>>

  function On(table: Table, node: Node): seq<Registration> {
    if node in table then table[node] else []
  }

  ghost function VisitsOf(registrations: seq<Registration>, own: bool): (v: seq<Visit>)
    reads registrations
    ensures |v| == |registrations|
    ensures forall k :: 0 <= k < |v| ==> v[k] == Visit(registrations[k].observer, registrations[k].options, own)
  {
    if registrations == [] then []
    else
      VisitsOf(registrations[..|registrations| - 1], own)
      + [Visit(registrations[|registrations| - 1].observer, registrations[|registrations| - 1].options, own)]
  }

  predicate Within(table: Table, all: set<Registration>) {
    forall n, r :: n in table && r in table[n] ==> r in all
  }

  /** The registrations met from the first node of the path to its last. */
  ghost function Visits(table: Table, all: set<Registration>, path: seq<Node>, start: Node): seq<Visit>
    requires Within(table, all)
    reads all
    decreases |path|
  {
    if path == [] then []
    else
      assert forall r :: r in On(table, path[0]) ==> r in all;
      VisitsOf(On(table, path[0]), path[0] == start) + Visits(table, all, path[1..], start)
  }

  lemma NoVisits(table: Table, all: set<Registration>, start: Node)
    requires Within(table, all)
    ensures Visits(table, all, [], start) == []
  {
  }

  lemma VisitsUnfold(table: Table, all: set<Registration>, path: seq<Node>, start: Node)
    requires Within(table, all) && path != []
    ensures Visits(table, all, path, start) == VisitsOf(On(table, path[0]), path[0] == start) + Visits(table, all, path[1..], start)
  {
    hide VisitsOf;
  }

  predicate Applies(ev: Event, v: Visit) {
    (v.own || v.options.subtree) && Matches(ev, v.options)
  }

  /** Some registration of the observer matches the event. */
  ghost predicate Interested(ev: Event, visits: seq<Visit>, o: Observer) {
    exists v :: v in visits && v.observer == o && Applies(ev, v)
  }

  /** Some matching registration of the observer asks for the old value. */
  ghost predicate Asked(ev: Event, visits: seq<Visit>, o: Observer) {
    exists v :: v in visits && v.observer == o && Applies(ev, v) && AsksOld(ev, v.options)
  }

  /** Which options are for an event, in their fields and the fields of the event; `withOld` asks for those that also
      want the previous value. */
  ghost predicate Wants(ev: Event, options: ObserverInit, withOld: bool) {
    match ev
    case AttrModified(_, name, namespace, _, _) =>
      && options.attributes && (withOld ==> options.attributeOldValue)
      && (options.attributeFilter == [] ||
          exists k :: 0 <= k < |options.attributeFilter|
                      && (options.attributeFilter[k] == name || namespace == Some(options.attributeFilter[k])))
    case CharacterDataModified(_, _) => options.characterData && (withOld ==> options.characterDataOldValue)
    case _ => options.childList && !withOld
  }

  /** The node that an event is about, or the parent of the node that it adds or removes. */
  ghost predicate StartsAt(ev: Event, n: Node) {
    match ev
    case AttrModified(t, _, _, _, _) => n == t
    case CharacterDataModified(t, _) => n == t
    case NodeInserted(_, related) => n == related
    case NodeRemoved(_, related) => n == related
  }

  /** Some registration of the observer, on the node where the event starts or with subtree on an ancestor, is for it. */
  ghost predicate Hears(ev: Event, table: Table, all: set<Registration>, path: seq<Node>, o: Observer, withOld: bool)
    requires Within(table, all)
    reads all
  {
    exists n, r :: n in path && n in table && r in table[n] && r.observer == o
                   && (StartsAt(ev, n) || r.options.subtree) && Wants(ev, r.options, withOld)
  }

  lemma WantsIff(ev: Event, options: ObserverInit)
    ensures Matches(ev, options) <==> Wants(ev, options, false)
    ensures Matches(ev, options) && AsksOld(ev, options) <==> Wants(ev, options, true)
  {
  }

  lemma {:induction false} VisitsAre(table: Table, all: set<Registration>, path: seq<Node>, start: Node, v: Visit)
    requires Within(table, all)
    ensures v in Visits(table, all, path, start) <==>
              exists n, r :: n in path && n in table && r in table[n] && v == Visit(r.observer, r.options, n == start)
    decreases |path|
  {
    if path != [] {
      VisitsAre(table, all, path[1..], start, v);
      VisitsUnfold(table, all, path, start);
      var list := On(table, path[0]);
      var here := VisitsOf(list, path[0] == start);
      assert v in here <==> exists r :: r in list && v == Visit(r.observer, r.options, path[0] == start) by {
        if r :| r in list && v == Visit(r.observer, r.options, path[0] == start) {
          var k :| 0 <= k < |list| && list[k] == r;
          assert here[k] == v;
        }
      }
      assert forall n :: n in path <==> n == path[0] || n in path[1..];
    }
  }

  /** What the walk finds is what is said of the registrations. */
  lemma HearsIff(ev: Event, table: Table, all: set<Registration>, path: seq<Node>, o: Observer)
    requires Within(table, all)
    ensures Interested(ev, Visits(table, all, path, StartNode(ev)), o) <==> Hears(ev, table, all, path, o, false)
    ensures Asked(ev, Visits(table, all, path, StartNode(ev)), o) <==> Hears(ev, table, all, path, o, true)
  {
    hide Visits, Matches, AsksOld, Wants;
    var start := StartNode(ev);
    var visits := Visits(table, all, path, start);
    forall v | v in visits && v.observer == o && Applies(ev, v)
      ensures Hears(ev, table, all, path, o, false)
      ensures AsksOld(ev, v.options) ==> Hears(ev, table, all, path, o, true)
    {
      VisitsAre(table, all, path, start, v);
      WantsIff(ev, v.options);
    }
    forall n, r | n in path && n in table && r in table[n] && r.observer == o && (StartsAt(ev, n) || r.options.subtree)
      ensures Wants(ev, r.options, false) ==> Interested(ev, visits, o)
      ensures Wants(ev, r.options, true) ==> Asked(ev, visits, o)
    {
      VisitsAre(table, all, path, start, Visit(r.observer, r.options, n == start));
      WantsIff(ev, r.options);
    }
  }

  /** The observer has these options on this node, and no registration elsewhere. */
  ghost predicate OneRegistration(table: Table, all: set<Registration>, o: Observer, target: Node, options: ObserverInit)
    requires Within(table, all)
    reads all
  {
    && (exists r :: target in table && r in table[target] && r.observer == o)
    && forall n, r :: n in table && r in table[n] && r.observer == o ==> n == target && r.options == options
  }

  lemma HearsOne(ev: Event, table: Table, all: set<Registration>, path: seq<Node>, o: Observer, target: Node, options: ObserverInit)
    requires Within(table, all) && OneRegistration(table, all, o, target, options)
    ensures forall withOld :: Hears(ev, table, all, path, o, withOld) <==>
              target in path && (StartsAt(ev, target) || options.subtree) && Wants(ev, options, withOld)
  {
    hide Wants, StartsAt;
  }

  lemma Registers(before: Table, after: Table, all: set<Registration>, o: Observer, target: Node, options: ObserverInit)
    requires Within(after, all) && forall n, r :: n in before && r in before[n] ==> r.observer != o
    requires forall n :: n != target ==> On(after, n) == On(before, n)
    requires |On(after, target)| == |On(before, target)| + 1 && On(after, target)[..|On(before, target)|] == On(before, target)
    requires var r := On(after, target)[|On(before, target)|]; r.observer == o && r.options == options
    ensures OneRegistration(after, all, o, target, options)
  {
    var list, front := On(after, target), On(before, target);
    assert list == front + [list[|front|]] && list[|front|] in list;
    assert forall n :: n in after && n != target ==> after[n] == On(before, n);
    assert forall r :: r in front ==> r.observer != o;
  }

  // ---------------------------------------------------------------- coalescing, on values

  /** A queue after one more record, with the two records of the current mutation. */
  ghost function Merge(queue: seq<MutationRecord>, record: MutationRecord, current: MutationRecord?, withOld: MutationRecord?): seq<MutationRecord> {
    if queue == [] then [record]
    else
      var last := queue[|queue| - 1];
      if last == record then queue
      else if withOld != null && (last == withOld || last == current) then queue[|queue| - 1 := withOld]
      else queue + [record]
  }

  /** What a mutation has added so far: nothing, or one record, the one with the old value once it was asked for. */
  ghost function Share(interested: bool, asked: bool, current: MutationRecord, withOld: MutationRecord?): seq<MutationRecord>
    requires asked ==> withOld != null
  {
    if asked then [withOld] else if interested then [current] else []
  }

  /** One more matching registration keeps it at one record, and upgrades that record when the old value is asked for. */
  lemma MergeKeepsOne(before: seq<MutationRecord>, interested: bool, asked: bool, asks: bool,
      current: MutationRecord, withOld: MutationRecord?)
    requires current !in before && (withOld != null ==> withOld !in before && withOld != current)
    requires asked || asks ==> withOld != null
    requires asked ==> interested
    ensures Merge(before + Share(interested, asked, current, withOld), if asks then withOld else current, current, withOld) ==
            before + Share(true, asked || asks, current, withOld)
  {
    var share := Share(interested, asked, current, withOld);
    var queue := before + share;
    if queue != [] {
      var last := queue[|queue| - 1];
      if share == [] {
        assert last == before[|before| - 1] && last in before;
      } else {
        assert last == share[0];
        assert withOld != null ==> queue[|queue| - 1 := withOld] == before + [withOld];
      }
    }
  }

  /** One observer during the walk: `was` is its queue from before the mutation, `waited` whether it was scheduled
      then; `queue` and `waits` are the present ones. */
  ghost predicate Grown(ev: Event, done: seq<Visit>, o: Observer, was: seq<MutationRecord>, waited: bool,
      current: MutationRecord, withOld: MutationRecord?, queue: seq<MutationRecord>, waits: bool)
  {
    && current !in was && (withOld != null ==> withOld !in was && withOld != current)
    && (Asked(ev, done, o) ==> withOld != null)
    && queue == was + Share(Interested(ev, done, o), Asked(ev, done, o), current, withOld)
    && (waits <==> waited || (was == [] && Interested(ev, done, o)))
  }

  lemma GrownAtStart(ev: Event, o: Observer, was: seq<MutationRecord>, waited: bool, current: MutationRecord)
    requires current !in was
    ensures Grown(ev, [], o, was, waited, current, null, was, waited)
  {
    assert was + [] == was;
  }

  lemma GrownAtEnd(ev: Event, done: seq<Visit>, o: Observer, was: seq<MutationRecord>, waited: bool,
      current: MutationRecord, withOld: MutationRecord?, queue: seq<MutationRecord>, waits: bool)
    requires Grown(ev, done, o, was, waited, current, withOld, queue, waits)
    ensures waits <==> waited || (was == [] && Interested(ev, done, o))
    ensures if Interested(ev, done, o) then
              |queue| == |was| + 1 && queue[..|was|] == was && if Asked(ev, done, o) then queue[|was|] == withOld else queue[|was|] == current
            else queue == was
  {
    hide Interested, Asked;
    if Asked(ev, done, o) {
      VisitStep(ev, done, Visit(o, ObserverInit(false, false, false, false, false, false, []), false), o);
    }
  }

  /** A registration that does not concern the observer leaves it alone, even if it brings the second record about. */
  lemma GrownApart(ev: Event, done: seq<Visit>, v: Visit, o: Observer, was: seq<MutationRecord>, waited: bool,
      current: MutationRecord, withOld: MutationRecord?, withOld': MutationRecord?, queue: seq<MutationRecord>, waits: bool)
    requires Grown(ev, done, o, was, waited, current, withOld, queue, waits)
    requires o != v.observer || !Applies(ev, v)
    requires withOld' == withOld || (withOld == null && withOld' !in was && withOld' != current)
    ensures Grown(ev, done + [v], o, was, waited, current, withOld', queue, waits)
  {
    hide Interested, Asked, Applies;
    VisitStep(ev, done, v, o);
  }

  /** A registration that concerns the observer merges one record into its queue. */
  lemma GrownMerged(ev: Event, done: seq<Visit>, v: Visit, o: Observer, was: seq<MutationRecord>, waited: bool,
      current: MutationRecord, withOld: MutationRecord?, withOld': MutationRecord?, queue: seq<MutationRecord>, waits: bool)
    requires Grown(ev, done, o, was, waited, current, withOld, queue, waits)
    requires o == v.observer && Applies(ev, v)
    requires withOld' == withOld || (withOld == null && withOld' !in was && withOld' != current)
    requires AsksOld(ev, v.options) ==> withOld' != null
    ensures var record := if AsksOld(ev, v.options) then withOld' else current;
            Grown(ev, done + [v], o, was, waited, current, withOld', Merge(queue, record, current, withOld'), waits || queue == [])
  {
    hide Interested, Asked, Applies, Merge, AsksOld;
    VisitStep(ev, done, v, o);
    MergeKeepsOne(was, Interested(ev, done, o), Asked(ev, done, o), AsksOld(ev, v.options), current, withOld');
  }

  /** Each registration stands under its own node; an observer has at most one per node. */
  ghost predicate Listed(node: Node, list: seq<Registration>, observers: set<Observer>) {
    && (forall r :: r in list ==> r.target == node && r.observer in observers)
    && (forall j, k :: 0 <= j < k < |list| ==> list[j].observer != list[k].observer)
  }

  lemma NoneListed(node: Node, observers: set<Observer>)
    ensures Listed(node, [], observers)
  {
  }

  lemma ListedShorter(node: Node, list: seq<Registration>, observers: set<Observer>, i: nat)
    requires Listed(node, list, observers) && i < |list|
    ensures Listed(node, list[..i] + list[i + 1..], observers)
  {
    var shorter := list[..i] + list[i + 1..];
    assert forall k :: 0 <= k < |shorter| ==> shorter[k] == list[if k < i then k else k + 1];
    assert forall r :: r in shorter ==> r in list;
  }

  lemma ListedLonger(node: Node, list: seq<Registration>, observers: set<Observer>, r: Registration)
    requires Listed(node, list, observers) && IndexOf(list, r.observer) == |list|
    requires r.target == node && r.observer in observers
    ensures Listed(node, list + [r], observers)
  {
  }

  lemma ListedOnce(node: Node, list: seq<Registration>, observers: set<Observer>, o: Observer)
    requires Listed(node, list, observers)
    ensures var i := IndexOf(list, o); Without(list, o) == if i < |list| then list[..i] + list[i + 1..] else list
  {
    WithoutOne(list, IndexOf(list, o), o);
  }

  /** The variables of the enclosing function. */
  class Globals {
    var registrationsTable: Table
    var scheduledObservers: seq<Observer>
    var isScheduled: bool
    var currentRecord: MutationRecord?
    var recordWithOldValue: MutationRecord?
    ghost var observers: set<Observer>
    ghost var registrations: set<Registration>

    ghost predicate Valid()
      reads this, observers
    {
      Ready() && Registered() && Known()
    }

    /** What the walk needs: any registrations, of known observers, on any nodes, and no event in progress. */
    ghost predicate Ready()
      reads this, observers
    {
      && Within(registrationsTable, registrations) && Owned()
      && currentRecord == null && recordWithOldValue == null
      && Scheduled()
    }

    ghost predicate Owned()
      reads this`registrationsTable, this`observers
    {
      forall n, r :: n in registrationsTable && r in registrationsTable[n] ==> r.observer in observers
    }

    ghost predicate Registered()
      reads this`registrationsTable, this`observers
    {
      forall n :: n in registrationsTable ==> Listed(n, registrationsTable[n], observers)
    }

    /** An observer knows the nodes it is registered on. */
    ghost predicate Known()
      reads this`registrationsTable, this`observers, observers`nodes
    {
      forall n, r :: n in registrationsTable && r in registrationsTable[n] && r.observer in observers ==> n in r.observer.nodes
    }

    /** An observer with records waits for its callback. */
    ghost predicate Scheduled()
      reads this`scheduledObservers, this`isScheduled, this`observers, observers`records
    {
      && (isScheduled <==> scheduledObservers != [])
      && (forall o :: o in observers && o.records != [] ==> o in scheduledObservers)
    }

    constructor ()
      ensures Valid() && registrationsTable == map[] && scheduledObservers == [] && observers == {} && registrations == {}
    {
      registrationsTable, scheduledObservers, isScheduled := map[], [], false;
      currentRecord, recordWithOldValue := null, null;
      observers, registrations := {}, {};
    }

    method ScheduleCallback(observer: Observer)
      modifies this`scheduledObservers, this`isScheduled
      ensures scheduledObservers == old(scheduledObservers) + [observer] && isScheduled
    {
      scheduledObservers := scheduledObservers + [observer];
      if !isScheduled {
        isScheduled := true;
      }
    }

    /** The copy of the current record that carries the old value, made when it is first asked for. */
    method GetRecordWithOldValue(oldValue: Option<string>) returns (r: MutationRecord)
      requires currentRecord != null
      modifies this`recordWithOldValue
      ensures r == recordWithOldValue
      ensures old(recordWithOldValue) != null ==> r == old(recordWithOldValue)
      ensures old(recordWithOldValue) == null ==>
                fresh(r) && r.oldValue == oldValue && r.kind == currentRecord.kind && r.target == currentRecord.target
                && r.addedNodes == currentRecord.addedNodes && r.removedNodes == currentRecord.removedNodes
                && r.previousSibling == currentRecord.previousSibling && r.nextSibling == currentRecord.nextSibling
                && r.attributeName == currentRecord.attributeName && r.attributeNamespace == currentRecord.attributeNamespace
    {
      if recordWithOldValue != null {
        return recordWithOldValue;
      }
      r := new MutationRecord(currentRecord.kind, currentRecord.target);
      r.addedNodes := currentRecord.addedNodes;
      r.removedNodes := currentRecord.removedNodes;
      r.previousSibling := currentRecord.previousSibling;
      r.nextSibling := currentRecord.nextSibling;
      r.attributeName := currentRecord.attributeName;
      r.attributeNamespace := currentRecord.attributeNamespace;
      r.oldValue := oldValue;
      recordWithOldValue := r;
    }

    /** The record that should take the place of the last one: none when the last one is of an earlier mutation. */
    method SelectRecord(lastRecord: MutationRecord, newRecord: MutationRecord) returns (r: MutationRecord?)
      ensures lastRecord == newRecord ==> r == lastRecord
      ensures lastRecord != newRecord ==>
                r == if recordWithOldValue != null && lastRecord in {recordWithOldValue, currentRecord} then recordWithOldValue else null
    {
      if lastRecord == newRecord {
        return lastRecord;
      }
      if recordWithOldValue != null && (lastRecord == recordWithOldValue || lastRecord == currentRecord) {
        return recordWithOldValue;
      }
      return null;
    }

    /** Enqueues a record for the observer, or merges it into the record of the same mutation that is already there. */
    method Enqueue(observer: Observer, record: MutationRecord)
      modifies observer`records, this`scheduledObservers, this`isScheduled
      ensures observer.records == Merge(old(observer.records), record, currentRecord, recordWithOldValue)
      ensures if old(observer.records) == [] then scheduledObservers == old(scheduledObservers) + [observer] && isScheduled
              else unchanged(this)
    {
      var records := observer.records;
      if |records| > 0 {
        var lastRecord := records[|records| - 1];
        var recordToReplaceLast := SelectRecord(lastRecord, record);
        if recordToReplaceLast != null {
          observer.records := records[|records| - 1 := recordToReplaceLast];
          return;
        }
      } else {
        ScheduleCallback(observer);
      }
      observer.records := observer.records + [record];
    }

    /** The callback of the walk: which record, if any, a registration with these options gets. */
    method RecordFor(ev: Event, options: ObserverInit) returns (r: MutationRecord?)
      requires currentRecord != null
      modifies this`recordWithOldValue
      ensures !Wants(ev, options, false) ==> r == null && recordWithOldValue == old(recordWithOldValue)
      ensures Wants(ev, options, false) && !Wants(ev, options, true) ==> r == currentRecord && recordWithOldValue == old(recordWithOldValue)
      ensures Wants(ev, options, true) ==> r == recordWithOldValue && r != null
      ensures old(recordWithOldValue) != null ==> recordWithOldValue == old(recordWithOldValue)
      ensures old(recordWithOldValue) == null && recordWithOldValue != null ==>
                fresh(recordWithOldValue) && recordWithOldValue.oldValue == OldValue(ev)
                && (currentRecord.Describes(ev) ==> recordWithOldValue.Describes(ev))
    {
      WantsIff(ev, options);
      if !Matches(ev, options) {
        return null;
      }
      if AsksOld(ev, options) {
        r := GetRecordWithOldValue(OldValue(ev));
      } else {
        r := currentRecord;
      }
    }

    // -------------------------------------------------------------- one mutation

    /** The state of the walk: `before` holds the queues from before the mutation, `waiting` the observers scheduled then. */
    ghost predicate Progress(ev: Event, done: seq<Visit>, before: map<Observer, seq<MutationRecord>>, waiting: seq<Observer>)
      reads this, observers
    {
      && currentRecord != null && before.Keys == observers && recordWithOldValue != currentRecord
      && (forall o :: o in observers ==>
            Grown(ev, done, o, before[o], o in waiting, currentRecord, recordWithOldValue, o.records, o in scheduledObservers))
      && (isScheduled <==> scheduledObservers != [])
    }

    /** The body of the walk for one registration. */
    method EnqueueFor(ev: Event, registration: Registration, own: bool)
      requires currentRecord != null
      modifies this`recordWithOldValue, this`scheduledObservers, this`isScheduled, registration.observer`records
      ensures var v := Visit(registration.observer, registration.options, own);
              var o := registration.observer;
              if Applies(ev, v) then
                && (AsksOld(ev, v.options) ==> recordWithOldValue != null)
                && o.records == Merge(old(o.records), if AsksOld(ev, v.options) then recordWithOldValue else currentRecord,
                                      currentRecord, recordWithOldValue)
                && (if old(o.records) == [] then scheduledObservers == old(scheduledObservers) + [o] && isScheduled
                    else scheduledObservers == old(scheduledObservers) && isScheduled == old(isScheduled))
              else o.records == old(o.records) && scheduledObservers == old(scheduledObservers) && isScheduled == old(isScheduled)
      ensures old(recordWithOldValue) != null ==> recordWithOldValue == old(recordWithOldValue)
      ensures old(recordWithOldValue) == null && recordWithOldValue != null ==>
                fresh(recordWithOldValue) && recordWithOldValue.oldValue == OldValue(ev)
                && (currentRecord.Describes(ev) ==> recordWithOldValue.Describes(ev))
    {
      hide Merge, MutationRecord.Describes, AsksOld, Matches, Wants;
      WantsIff(ev, registration.options);
      if !own && !registration.options.subtree {
        return;
      }
      var record := RecordFor(ev, registration.options);
      if record != null {
        Enqueue(registration.observer, record);
      }
    }

    /** One registration of the walk. */
    method VisitRegistration(ev: Event, registration: Registration, own: bool, ghost done: seq<Visit>,
        ghost before: map<Observer, seq<MutationRecord>>, ghost waiting: seq<Observer>)
      requires Progress(ev, done, before, waiting) && registration.observer in observers
      modifies this`recordWithOldValue, this`scheduledObservers, this`isScheduled, registration.observer`records
      ensures Progress(ev, done + [Visit(registration.observer, registration.options, own)], before, waiting)
      ensures old(recordWithOldValue) != null ==> recordWithOldValue == old(recordWithOldValue)
      ensures old(recordWithOldValue) == null && recordWithOldValue != null ==>
                fresh(recordWithOldValue) && recordWithOldValue.oldValue == OldValue(ev)
                && (currentRecord.Describes(ev) ==> recordWithOldValue.Describes(ev))
    {
      hide Grown, Merge, MutationRecord.Describes, AsksOld, Applies;
      ghost var v := Visit(registration.observer, registration.options, own);
      EnqueueFor(ev, registration, own);
      forall p | p in observers
        ensures Grown(ev, done + [v], p, before[p], p in waiting, currentRecord, recordWithOldValue, p.records, p in scheduledObservers)
      {
        assert Grown(ev, done, p, before[p], p in waiting, old(currentRecord), old(recordWithOldValue), old(p.records), p in old(scheduledObservers));
        if p == v.observer && Applies(ev, v) {
          GrownMerged(ev, done, v, p, before[p], p in waiting, currentRecord,
                      old(recordWithOldValue), recordWithOldValue, old(p.records), p in old(scheduledObservers));
        } else {
          GrownApart(ev, done, v, p, before[p], p in waiting, currentRecord,
                     old(recordWithOldValue), recordWithOldValue, old(p.records), p in old(scheduledObservers));
        }
      }
    }

    /** The second record, when there is one, is the event's with the old value. */
    ghost predicate OldCopy(ev: Event)
      reads this, recordWithOldValue, ev.target
    {
      recordWithOldValue != null ==> recordWithOldValue.oldValue == OldValue(ev) && recordWithOldValue.Describes(ev)
    }

    /** The registrations of one node on the way. */
    method EnqueueAt(ev: Event, registrations: seq<Registration>, own: bool, ghost done: seq<Visit>,
        ghost before: map<Observer, seq<MutationRecord>>, ghost waiting: seq<Observer>)
      requires Progress(ev, done, before, waiting) && OldCopy(ev) && currentRecord.Describes(ev)
      requires forall r :: r in registrations ==> r.observer in observers
      modifies this`recordWithOldValue, this`scheduledObservers, this`isScheduled, observers`records
      ensures Progress(ev, done + old(VisitsOf(registrations, own)), before, waiting) && OldCopy(ev)
      ensures recordWithOldValue == old(recordWithOldValue) || fresh(recordWithOldValue)
    {
      hide Grown, MutationRecord.Describes;
      ghost var here := VisitsOf(registrations, own);
      ghost var record := recordWithOldValue;
      var j := 0;
      assert done + here[..0] == done;
      while j < |registrations|
        invariant 0 <= j <= |registrations|
        invariant Progress(ev, done + here[..j], before, waiting)
        invariant OldCopy(ev) && (recordWithOldValue == record || fresh(recordWithOldValue))
      {
        assert here[j] == Visit(registrations[j].observer, registrations[j].options, own);
        assert done + here[..j] + [here[j]] == done + here[..j + 1];
        VisitRegistration(ev, registrations[j], own, done + here[..j], before, waiting);
        j := j + 1;
      }
      assert here[..j] == here;
    }

    lemma KnownObservers(node: Node)
      requires Owned()
      ensures forall r :: r in On(registrationsTable, node) ==> r.observer in observers
    {
    }

    /** The walk from the start node to the root (forEachAncestorAndObserverEnqueueRecord). */
    method EnqueueAll(ev: Event, ghost path: seq<Node>, ghost before: map<Observer, seq<MutationRecord>>, ghost waiting: seq<Observer>)
      requires IsPath(StartNode(ev), path) && Owned() && Within(registrationsTable, registrations) && recordWithOldValue == null
      requires currentRecord != null && currentRecord.Describes(ev) && Progress(ev, [], before, waiting)
      modifies this`recordWithOldValue, this`scheduledObservers, this`isScheduled, observers`records
      ensures Progress(ev, old(Visits(registrationsTable, registrations, path, StartNode(ev))), before, waiting) && OldCopy(ev)
      ensures recordWithOldValue != null ==> fresh(recordWithOldValue)
    {
      hide Progress, MutationRecord.Describes, VisitsOf, Visits, Owned, Within, On;
      var node: Node? := StartNode(ev);
      ghost var done: seq<Visit>, rest := [], path;
      ghost var all := Visits(registrationsTable, registrations, path, node);
      while node != null
        invariant IsPath(node, rest) && Owned() && Within(registrationsTable, registrations)
                  && currentRecord != null && currentRecord.Describes(ev)
        invariant Progress(ev, done, before, waiting) && OldCopy(ev) && (recordWithOldValue != null ==> fresh(recordWithOldValue))
        invariant done + Visits(registrationsTable, registrations, rest, StartNode(ev)) == all
        decreases |rest|
      {
        var own := node == StartNode(ev);
        KnownObservers(node);
        VisitsUnfold(registrationsTable, registrations, rest, StartNode(ev));
        ghost var here := VisitsOf(On(registrationsTable, node), own);
        ghost var after := Visits(registrationsTable, registrations, rest[1..], StartNode(ev));
        EnqueueAt(ev, On(registrationsTable, node), own, done, before, waiting);
        done := done + here;
        assert after == Visits(registrationsTable, registrations, rest[1..], StartNode(ev));
        node := node.parentNode;
        rest := rest[1..];
      }
      assert done + Visits(registrationsTable, registrations, [], StartNode(ev)) == done by {
        NoVisits(registrationsTable, registrations, StartNode(ev));
      }
    }

    /** The record of an event, before any old value. */
    method GetRecord(ev: Event) returns (record: MutationRecord)
      ensures fresh(record) && record.Describes(ev) && record.oldValue == None
    {
      if ev.AttrModified? {
        record := new MutationRecord(Attributes, ev.target);
        record.attributeName := Some(ev.name);
        record.attributeNamespace := ev.namespace;
      } else if ev.CharacterDataModified? {
        record := new MutationRecord(CharacterData, ev.target);
      } else {
        var changedNode := ev.target;
        record := new MutationRecord(ChildList, changedNode.parentNode);
        if ev.NodeInserted? {
          record.addedNodes := [changedNode];
        } else {
          record.removedNodes := [changedNode];
        }
        record.previousSibling := changedNode.previousSibling;
        record.nextSibling := changedNode.nextSibling;
      }
    }

    /** The end of a mutation (clearRecords): what the walk amounts to for each observer. */
    method ClearRecords(ev: Event, ghost visits: seq<Visit>, ghost before: map<Observer, seq<MutationRecord>>, ghost waiting: seq<Observer>)
      requires Progress(ev, visits, before, waiting) && OldCopy(ev) && currentRecord.Describes(ev) && currentRecord.oldValue == None
      modifies this`currentRecord, this`recordWithOldValue
      ensures currentRecord == null && recordWithOldValue == null
      ensures forall o :: o in observers ==>
                && (o in scheduledObservers <==> o in waiting || (before[o] == [] && Interested(ev, visits, o)))
                && if Interested(ev, visits, o) then
                     && |o.records| == |before[o]| + 1 && o.records[..|before[o]|] == before[o]
                     && var r := o.records[|before[o]|];
                        r in {old(currentRecord), old(recordWithOldValue)}
                        && r.Describes(ev) && r.oldValue == if Asked(ev, visits, o) then OldValue(ev) else None
                   else o.records == before[o]
    {
      hide Grown, Asked, Interested, MutationRecord.Describes;
      ghost var current, withOld := currentRecord, recordWithOldValue;
      forall o | o in observers
        ensures o in scheduledObservers <==> o in waiting || (before[o] == [] && Interested(ev, visits, o))
        ensures if Interested(ev, visits, o) then
                  && |o.records| == |before[o]| + 1 && o.records[..|before[o]|] == before[o]
                  && if Asked(ev, visits, o) then o.records[|before[o]|] == withOld else o.records[|before[o]|] == current
                else o.records == before[o]
      {
        GrownAtEnd(ev, visits, o, before[o], o in waiting, current, withOld, o.records, o in scheduledObservers);
      }
      currentRecord := null;
      recordWithOldValue := null;
    }

    /** One mutation: the queue of an observer grows by one record if and only if some registration of it is for the event,
        and that record says what happened, with the previous value if and only if one of these registrations wants it
        and there was one. Every other queue is as it was. */
    method HandleEvent(ev: Event, ghost path: seq<Node>)
      requires Ready() && IsPath(StartNode(ev), path)
      modifies this`currentRecord, this`recordWithOldValue, this`scheduledObservers, this`isScheduled, observers`records
      ensures Ready() && (old(Valid()) ==> Valid())
      ensures forall o :: o in observers ==>
                && (o in scheduledObservers <==>
                      o in old(scheduledObservers) ||
                      (old(o.records) == [] && Hears(ev, registrationsTable, registrations, path, o, false)))
                && if Hears(ev, registrationsTable, registrations, path, o, false) then
                     && |o.records| == |old(o.records)| + 1 && o.records[..|old(o.records)|] == old(o.records)
                     && var r := o.records[|old(o.records)|];
                        fresh(r) && r.Tells(ev, Hears(ev, registrationsTable, registrations, path, o, true))
                   else o.records == old(o.records)
    {
      hide Grown, Asked, Interested, MutationRecord.Describes, MutationRecord.Tells, Visits, IsPath, Registered, Known, Owned;
      hide Within, OldCopy, Hears;
      ghost var before := map o | o in observers :: o.records;
      ghost var waiting := scheduledObservers;
      ghost var visits := Visits(registrationsTable, registrations, path, StartNode(ev));
      var record := GetRecord(ev);
      currentRecord := record;
      forall o | o in observers
        ensures Grown(ev, [], o, before[o], o in waiting, currentRecord, recordWithOldValue, o.records, o in scheduledObservers)
      {
        GrownAtStart(ev, o, o.records, o in waiting, record);
      }
      assert visits == Visits(registrationsTable, registrations, path, StartNode(ev));
      EnqueueAll(ev, path, before, waiting);
      ClearRecords(ev, visits, before, waiting);
      forall o | o in observers
        ensures Interested(ev, visits, o) <==> Hears(ev, registrationsTable, registrations, path, o, false)
        ensures Asked(ev, visits, o) <==> Hears(ev, registrationsTable, registrations, path, o, true)
      {
        HearsIff(ev, registrationsTable, registrations, path, o);
      }
      forall o | o in observers && Interested(ev, visits, o)
        ensures o.records[|before[o]|].Tells(ev, Asked(ev, visits, o))
      {
        TellsIs(o.records[|before[o]|], ev, Asked(ev, visits, o));
      }
    }

    lemma TellsIs(r: MutationRecord, ev: Event, asked: bool)
      requires r.Describes(ev) && r.oldValue == if asked then OldValue(ev) else None
      ensures r.Tells(ev, asked)
    {
    }

    // -------------------------------------------------------------- registering

    method NewObserver() returns (o: Observer)
      requires Valid()
      modifies this`observers
      ensures Valid() && fresh(o) && observers == old(observers) + {o} && o.records == [] && o.nodes == []
    {
      o := new Observer();
      observers := observers + {o};
    }

    /** Registers an observer on a node; false is a SyntaxError. Observing a node again only replaces the options. */
    method Observe(observer: Observer, target: Node, options: ObserverInit) returns (ok: bool)
      requires Valid() && observer in observers
      modifies this`registrationsTable, this`registrations, registrations`options, observer`nodes
      ensures Valid()
      ensures ok <==>
                && (options.childList || options.attributes || options.characterData)
                && (options.attributeOldValue || options.attributeFilter != [] ==> options.attributes)
                && (options.characterDataOldValue ==> options.characterData)
      ensures !ok ==> registrationsTable == old(registrationsTable)
      ensures ok ==> forall n :: n != target ==> On(registrationsTable, n) == On(old(registrationsTable), n)
      ensures ok ==> var before, after := On(old(registrationsTable), target), On(registrationsTable, target);
                var i := IndexOf(before, observer);
                && (if i < |before| then after == before else |after| == |before| + 1 && after[..|before|] == before)
                && after[i].observer == observer && after[i].options == options
      ensures forall r :: r in old(registrations) && (ok ==> !(r.observer == observer && r in On(registrationsTable, target))) ==> unchanged(r)
    {
      if !Acceptable(options) {
        return false;
      }
      var list := On(registrationsTable, target);
      var i := Find(list, observer);
      if i < |list| {
        assert list[i] in registrations;
        list[i].options := options;
        return true;
      }
      Register(observer, target, options, list);
      return true;
    }

    /** The first registration of an observer anywhere. */
    method ObserveFirst(observer: Observer, target: Node, options: ObserverInit) returns (ok: bool)
      requires Valid() && observer in observers
      requires forall n, r :: n in registrationsTable && r in registrationsTable[n] ==> r.observer != observer
      modifies this`registrationsTable, this`registrations, registrations`options, observer`nodes
      ensures Valid()
      ensures ok ==> OneRegistration(registrationsTable, registrations, observer, target, options)
    {
      hide Registered, Known, Owned, Scheduled, OneRegistration;
      ghost var before := registrationsTable;
      ok := Observe(observer, target, options);
      if ok {
        FirstIndex(On(before, target), observer);
        Registers(before, registrationsTable, registrations, observer, target, options);
      }
    }

    lemma FirstIndex(list: seq<Registration>, o: Observer)
      requires forall r :: r in list ==> r.observer != o
      ensures IndexOf(list, o) == |list|
    {
      assert forall k :: 0 <= k < |list| ==> list[k] in list;
    }

    /** An observer that had no registration observes a node, and then a mutation happens: it gets a record if and only if
        the node is where the event starts, or an ancestor of it and `subtree` was set, and the options are for it. */
    method ObserveThenMutate(observer: Observer, target: Node, options: ObserverInit, ev: Event, ghost path: seq<Node>)
        returns (ok: bool)
      requires Valid() && observer in observers && IsPath(StartNode(ev), path)
      requires forall n, r :: n in registrationsTable && r in registrationsTable[n] ==> r.observer != observer
      modifies this, registrations`options, observers`records, observer`nodes
      ensures Valid()
      ensures if ok && target in path && (StartsAt(ev, target) || options.subtree) && Wants(ev, options, false)
              then |observer.records| == |old(observer.records)| + 1 && observer.records[..|old(observer.records)|] == old(observer.records)
                   && observer.records[|old(observer.records)|].Tells(ev, Wants(ev, options, true))
              else observer.records == old(observer.records)
    {
      hide IsPath, Wants, StartsAt, MutationRecord.Tells, Hears, Registered, Known, Owned, Scheduled, OneRegistration;
      ok := ObserveFirst(observer, target, options);
      if ok {
        HearsOne(ev, registrationsTable, registrations, path, observer, target, options);
        HandleEvent(ev, path);
      }
    }

    /** A first registration of the observer on the node. */
    method Register(observer: Observer, target: Node, options: ObserverInit, list: seq<Registration>)
      requires Valid() && observer in observers && list == On(registrationsTable, target) && IndexOf(list, observer) == |list|
      modifies this`registrationsTable, this`registrations, observer`nodes
      ensures Valid() && registrations >= old(registrations)
      ensures forall n :: n != target ==> On(registrationsTable, n) == On(old(registrationsTable), n)
      ensures var after := On(registrationsTable, target);
              |after| == |list| + 1 && after[..|list|] == list && fresh(after[|list|])
              && after[|list|].observer == observer && after[|list|].options == options
    {
      hide IndexOf, Listed;
      var registration := new Registration(observer, target, options);
      registrations := registrations + {registration};
      observer.nodes := observer.nodes + [target];
      NoneListed(target, observers);
      ListedLonger(target, list, observers, registration);
      registrationsTable := registrationsTable[target := list + [registration]];
    }

    /** Removes the observer's registration from one node. */
    method Drop(node: Node, observer: Observer)
      requires Within(registrationsTable, registrations) && Registered() && Known()
      modifies this`registrationsTable
      ensures Within(registrationsTable, registrations) && Registered() && Known()
      ensures forall n :: On(registrationsTable, n) ==
                if n == node then Without(On(old(registrationsTable), n), observer) else On(old(registrationsTable), n)
    {
      hide Listed, Without, IndexOf;
      var list := On(registrationsTable, node);
      assert Listed(node, [], observers) by {
        NoneListed(node, observers);
      }
      var i := Find(list, observer);
      ListedOnce(node, list, observers, observer);
      if i < |list| {
        ListedShorter(node, list, observers, i);
        registrationsTable := registrationsTable[node := list[..i] + list[i + 1..]];
      }
    }

    /** Removes every registration of the observer, and its records. */
    method Disconnect(observer: Observer)
      requires Valid() && observer in observers
      modifies this`registrationsTable, observer`records
      ensures Valid() && observer.records == []
      ensures forall n :: On(registrationsTable, n) == Without(On(old(registrationsTable), n), observer)
    {
      hide Without;
      ghost var before := registrationsTable;
      var i := 0;
      while i < |observer.nodes|
        invariant 0 <= i <= |observer.nodes|
        invariant Within(registrationsTable, registrations) && Registered() && Known()
        invariant forall n :: On(registrationsTable, n) ==
                    if n in observer.nodes[..i] then Without(On(before, n), observer) else On(before, n)
      {
        var node := observer.nodes[i];
        Drop(node, observer);
        WithoutMembers(On(before, node), observer);
        WithoutNone(Without(On(before, node), observer), observer);
        assert observer.nodes[..i + 1] == observer.nodes[..i] + [node];
        i := i + 1;
      }
      forall n | n !in observer.nodes
        ensures Without(On(before, n), observer) == On(before, n)
      {
        WithoutNone(On(before, n), observer);
      }
      assert observer.nodes[..i] == observer.nodes;
      observer.records := [];
    }
  }

  /** The position of the observer's registration, or the length of the list. */
  ghost function IndexOf(list: seq<Registration>, o: Observer): (i: nat)
    ensures i <= |list| && (i < |list| ==> list[i].observer == o)
    ensures forall k :: 0 <= k < i ==> list[k].observer != o
  {
    if list == [] || list[0].observer == o then 0 else 1 + IndexOf(list[1..], o)
  }

  method Find(list: seq<Registration>, o: Observer) returns (i: nat)
    ensures i == IndexOf(list, o)
  {
    i := 0;
    while i < |list| && list[i].observer != o
      invariant 0 <= i <= |list| && forall k :: 0 <= k < i ==> list[k].observer != o
    {
      i := i + 1;
    }
  }

  predicate Acceptable(options: ObserverInit) {
    && (options.childList || options.attributes || options.characterData)
    && (options.attributeOldValue ==> options.attributes)
    && (options.attributeFilter != [] ==> options.attributes)
    && (options.characterDataOldValue ==> options.characterData)
  }

  /** The registrations of the other observers. */
  ghost function Without(list: seq<Registration>, o: Observer): seq<Registration> {
    if list == [] then [] else (if list[0].observer == o then [] else [list[0]]) + Without(list[1..], o)
  }

  lemma {:induction false} WithoutNone(list: seq<Registration>, o: Observer)
    requires forall r :: r in list ==> r.observer != o
    ensures Without(list, o) == list
  {
    if list != [] {
      WithoutNone(list[1..], o);
    }
  }

  lemma {:induction false} WithoutMembers(list: seq<Registration>, o: Observer)
    ensures forall r :: r in Without(list, o) ==> r in list && r.observer != o
  {
    if list != [] {
      WithoutMembers(list[1..], o);
    }
  }

  lemma {:induction false} WithoutConcat(a: seq<Registration>, b: seq<Registration>, o: Observer)
    ensures Without(a + b, o) == Without(a, o) + Without(b, o)
    decreases |a|
  {
    if a == [] {
      assert a + b == b;
    } else {
      assert (a + b)[1..] == a[1..] + b;
      WithoutConcat(a[1..], b, o);
    }
  }

  lemma WithoutMiddle(front: seq<Registration>, x: Registration, rest: seq<Registration>, o: Observer)
    requires x.observer == o && (forall r :: r in front + rest ==> r.observer != o)
    ensures Without(front + ([x] + rest), o) == front + rest
  {
    WithoutConcat(front, [x] + rest, o);
    WithoutNone(front, o);
    WithoutNone(rest, o);
    assert ([x] + rest)[1..] == rest;
  }

  /** Without duplicates, dropping the first registration of the observer drops them all. */
  lemma WithoutOne(list: seq<Registration>, j: nat, o: Observer)
    requires j <= |list| && (forall k :: 0 <= k < j ==> list[k].observer != o)
    requires j < |list| ==> list[j].observer == o && forall k :: j < k < |list| ==> list[k].observer != o
    ensures Without(list, o) == if j < |list| then list[..j] + list[j + 1..] else list
  {
    hide Without;
    if j == |list| {
      WithoutNone(list, o);
    } else {
      WithoutMiddle(list[..j], list[j], list[j + 1..], o);
      assert list == list[..j] + ([list[j]] + list[j + 1..]);
    }
  }

  lemma VisitStep(ev: Event, done: seq<Visit>, v: Visit, o: Observer)
    ensures Interested(ev, done + [v], o) == (Interested(ev, done, o) || (v.observer == o && Applies(ev, v)))
    ensures Asked(ev, done + [v], o) == (Asked(ev, done, o) || (v.observer == o && Applies(ev, v) && AsksOld(ev, v.options)))
    ensures Asked(ev, done, o) ==> Interested(ev, done, o)
  {
    assert v in done + [v];
    assert forall u :: u in done ==> u in done + [v];
  }

  /** An observer without registrations, as after disconnect, is not interested in any event, wherever it happens. */
  lemma {:induction false} NeverHears(ev: Event, table: Table, all: set<Registration>, path: seq<Node>, start: Node, o: Observer)
    requires Within(table, all) && forall n :: On(table, n) == Without(On(table, n), o)
    ensures !Interested(ev, Visits(table, all, path, start), o)
    decreases |path|
  {
    if path != [] {
      NeverHears(ev, table, all, path[1..], start, o);
      var here := VisitsOf(On(table, path[0]), path[0] == start);
      WithoutMembers(On(table, path[0]), o);
      forall v | v in here
        ensures v.observer != o
      {
        var k :| 0 <= k < |here| && here[k] == v;
        assert On(table, path[0])[k] in Without(On(table, path[0]), o);
      }
    }
  }
}
