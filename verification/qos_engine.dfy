/**
 * The PM QoS aggregator: the per-class request lists, the cached targets,
 * and the request operations `pm_qos_add_request`, `pm_qos_update_request`
 * and `pm_qos_remove_request`, all of which go through `update_target`.
 * Each operation is one atomic step (the spinlock is not modelled); a
 * notifier-chain call is reported as the `Event` of the step.
 */
module QosEngine {
  import opened Common
  import opened QosClasses
  import opened QosLedger

  /** One call of a class's notifier chain, with the new target it passes. */
  datatype Event = Event(cls: nat, value: Int32)

  /**
   * Every class's definition, request list and cached `target_value`, and
   * the `pm_qos_class` field of every active handle.  A handle missing from
   * `active` has class 0 (it is zero-filled, never added or removed).
   */
  datatype Engine = Engine(
    classes: seq<QosClass>,
    lists: seq<seq<Node>>,
    targets: seq<Int32>,
    active: map<HandleId, nat>)

  /** The state after a mutation and the notification it fired, if any. */
  datatype Step = Step(engine: Engine, event: Option<Event>)

  ghost predicate Shaped(s: Engine) {
    WellFormedTable(s.classes) && |s.lists| == NumClasses && |s.targets| == NumClasses
  }

  /**
   * The invariant every reachable state keeps: the reserved class has no
   * requests; each list links every handle at most once; each cache holds
   * the aggregate of its list; a node is linked exactly in the list of its
   * handle's class and never holds the sentinel; and an active handle has a
   * real class and a node in that class's list.
   */
  ghost predicate Valid(s: Engine) {
    && Shaped(s)
    && s.lists[Reserved] == []
    && ListsSound(s)
    && NodesLinked(s)
    && HandlesLinked(s)
  }

  /** Each list links every handle at most once and its cache holds its aggregate. */
  ghost predicate ListsSound(s: Engine)
    requires Shaped(s)
  {
    forall c :: 0 <= c < NumClasses ==>
      Distinct(s.lists[c]) && s.targets[c] == GetValue(s.classes[c], s.lists[c])
  }

  /** Every linked node belongs to an active handle of its list's class and holds a real value. */
  ghost predicate NodesLinked(s: Engine)
    requires Shaped(s)
  {
    forall c, n :: 0 <= c < NumClasses && n in s.lists[c] ==>
      n.owner in s.active && s.active[n.owner] == c && n.prio != Sentinel
  }

  /** Every active handle has a real class and a node in that class's list. */
  ghost predicate HandlesLinked(s: Engine)
    requires Shaped(s)
  {
    forall h :: h in s.active ==>
      0 < s.active[h] < NumClasses && h in Owners(s.lists[s.active[h]])
  }

  /** Every class other than `c` keeps its list and its target. */
  ghost predicate OnlyClassChanged(s: Engine, s': Engine, c: nat)
    requires Shaped(s) && Shaped(s')
  {
    && s'.classes == s.classes
    && forall d :: 0 <= d < NumClasses && d != c ==>
         s'.lists[d] == s.lists[d] && s'.targets[d] == s.targets[d]
  }

  /** The step notified exactly when the target of `c` changed, passing the new target. */
  ghost predicate NotifiedOnChange(s: Engine, r: Step, c: nat)
    requires Shaped(s) && Shaped(r.engine) && c < NumClasses
  {
    && (r.event.Some? <==> r.engine.targets[c] != s.targets[c])
    && (r.event.Some? ==> r.event.value == Event(c, r.engine.targets[c]))
  }

  /** The state at boot: no requests, every target at its class default. */
  function Init(classes: seq<QosClass>): (s: Engine)
    requires WellFormedTable(classes)
    ensures Valid(s)
    ensures forall c :: 0 <= c < NumClasses ==> s.lists[c] == [] && s.targets[c] == classes[c].defaultValue
  {
    Engine(classes, seq(NumClasses, _ => []),
           seq(NumClasses, c requires 0 <= c < NumClasses => classes[c].defaultValue), map[])
  }

  /** In a valid state no target is the sentinel: it is a default or a linked priority. */
  lemma TargetNotSentinel(s: Engine, c: nat)
    requires Valid(s) && c < NumClasses
    ensures s.targets[c] != Sentinel
  {
    var l := s.lists[c];
    if l != [] {
      var i :| 0 <= i < |l| && l[i].prio == s.targets[c];
      assert l[i] in l;
    }
  }

  /** A handle that owns a node of some list is active in that list's class. */
  lemma OwnerIsActive(s: Engine, c: nat, h: HandleId)
    requires Valid(s) && c < NumClasses && h in Owners(s.lists[c])
    ensures h in s.active && s.active[h] == c
  {
    var p := PrioOf(s.lists[c], h);
    assert Node(h, p) in s.lists[c];
  }

  /** `pm_qos_request`: the cached target of a class. */
  function Request(s: Engine, c: nat): (r: Int32)
    requires Valid(s) && c < NumClasses
    ensures IsAggregate(s.classes[c], s.lists[c], r)
  {
    AggregateIsGetValue(s.classes[c], s.lists[c], s.targets[c]);
    s.targets[c]
  }

  /** `pm_qos_request_active`: whether the handle's class is non-zero. */
  function RequestActive(s: Engine, h: HandleId): (r: bool)
    requires Valid(s)
    ensures r <==> exists c :: 0 <= c < NumClasses && h in Owners(s.lists[c])
  {
    if h in s.active then
      assert h in Owners(s.lists[s.active[h]]);
      true
    else
      assert forall c :: 0 <= c < NumClasses ==> h !in Owners(s.lists[c]) by {
        forall c | 0 <= c < NumClasses ensures h !in Owners(s.lists[c]) {
          if h in Owners(s.lists[c]) {
            OwnerIsActive(s, c, h);
          }
        }
      }
      false
  }

  /** The value a request stands for: the class default in place of the sentinel. */
  function Substitute(s: Engine, c: nat, v: Int32): (r: Int32)
    requires Shaped(s) && c < NumClasses
    ensures r != Sentinel
    ensures v == Sentinel ==> r == s.classes[c].defaultValue
    ensures v != Sentinel ==> r == v
  {
    if v == Sentinel then s.classes[c].defaultValue else v
  }

  /** `x` respects the current target of the class paired with `c`, if any. */
  ghost predicate Admissible(s: Engine, c: nat, x: int)
    requires Shaped(s)
  {
    match RoleOf(c)
    case Ceiling(f) => x >= s.targets[f]
    case Floor(g) => x <= s.targets[g]
    case Unpaired => true
  }

  /**
   * `pm_qos_verify_request`: a request for a ceiling class is raised to the
   * floor class's target, one for a floor class is lowered to the ceiling
   * class's target; other requests pass through.
   */
  function VerifyRequest(s: Engine, c: nat, v: Int32): (r: Int32)
    requires Valid(s) && c < NumClasses
    ensures Admissible(s, c, r)
    ensures Admissible(s, c, v) ==> r == v
    ensures r == v || (RoleOf(c) != Unpaired && r == s.targets[if RoleOf(c).Ceiling? then RoleOf(c).floor else RoleOf(c).ceiling])
    ensures v != Sentinel ==> r != Sentinel
  {
    match RoleOf(c)
    case Ceiling(f) =>
      TargetNotSentinel(s, f);
      if v < s.targets[f] then s.targets[f] else v
    case Floor(g) =>
      TargetNotSentinel(s, g);
      if v > s.targets[g] then s.targets[g] else v
    case Unpaired => v
  }

  /** The list `update_target` leaves: replace, unlink, or link the node. */
  function NewList(l: seq<Node>, node: Node, del: bool, value: Int32): seq<Node> {
    if value != Sentinel then Without(l, node.owner) + [Node(node.owner, value)]
    else if del then Without(l, node.owner)
    else l + [node]
  }

  /**
   * `update_target`: changes the list of class `c` (a value other than the
   * sentinel re-links the node with that value; otherwise `del` unlinks it
   * and `!del` links it), stores the freshly computed aggregate in the cache
   * and notifies when the aggregate before and after differ.
   */
  function UpdateTarget(s: Engine, c: nat, node: Node, del: bool, value: Int32): (r: Step)
    requires Shaped(s) && 0 < c < NumClasses
    ensures Shaped(r.engine) && r.engine.active == s.active
    ensures OnlyClassChanged(s, r.engine, c)
    ensures r.engine.lists[c] == NewList(s.lists[c], node, del, value)
    ensures IsAggregate(s.classes[c], r.engine.lists[c], r.engine.targets[c])
    ensures r.event.Some? <==> !IsAggregate(s.classes[c], s.lists[c], r.engine.targets[c])
    ensures s.targets[c] == GetValue(s.classes[c], s.lists[c]) ==> NotifiedOnChange(s, r, c)
  {
    var cls := s.classes[c];
    var prev := GetValue(cls, s.lists[c]);
    var l := NewList(s.lists[c], node, del, value);
    var curr := GetValue(cls, l);
    AggregateIsGetValue(cls, l, curr);
    AggregateIsGetValue(cls, s.lists[c], curr);
    Step(s.(lists := s.lists[c := l], targets := s.targets[c := curr]),
         if prev != curr then Some(Event(c, curr)) else None)
  }

  /** The effect of each `update_target` mode on the ledger of the class. */
  lemma NewListLedger(l: seq<Node>, node: Node, del: bool, value: Int32)
    ensures value != Sentinel ==>
              Ledger(NewList(l, node, del, value)) == Ledger(l)[node.owner := value]
    ensures value == Sentinel && del ==>
              Ledger(NewList(l, node, del, value)) == Ledger(l) - {node.owner}
    ensures value == Sentinel && !del && node.owner !in Owners(l) ==>
              Ledger(NewList(l, node, del, value)) == Ledger(l)[node.owner := node.prio]
  {
    WithoutFacts(l, node.owner);
    if value != Sentinel {
      AppendNode(Without(l, node.owner), Node(node.owner, value));
    } else if !del && node.owner !in Owners(l) {
      AppendNode(l, node);
    }
  }

  /**
   * `pm_qos_add_request`: on an active handle, nothing happens.  Otherwise the
   * handle becomes active in class `c` and links one node holding the
   * request (the class default for the sentinel, clamped against the paired
   * class); no other handle's entry changes.
   */
  function AddRequest(s: Engine, h: HandleId, c: nat, v: Int32): (r: Step)
    requires Valid(s) && 0 < c < NumClasses
    ensures Valid(r.engine)
    ensures h in s.active ==> r == Step(s, None)
    ensures h !in s.active ==>
              && r.engine.active == s.active[h := c]
              && h !in Ledger(s.lists[c])
              && Ledger(r.engine.lists[c]) == Ledger(s.lists[c])[h := VerifyRequest(s, c, Substitute(s, c, v))]
              && OnlyClassChanged(s, r.engine, c)
              && NotifiedOnChange(s, r, c)
  {
    if h in s.active then Step(s, None)
    else
      var p := VerifyRequest(s, c, Substitute(s, c, v));
      var r := UpdateTarget(s.(active := s.active[h := c]), c, Node(h, p), false, Sentinel);
      LinkStep(s, h, c, p, r.engine);
      r
  }

  /** The effect of `pm_qos_add_request`, stated over the facts `update_target` guarantees. */
  lemma LinkStep(s: Engine, h: HandleId, c: nat, p: Int32, e: Engine)
    requires Valid(s) && 0 < c < NumClasses && h !in s.active && p != Sentinel
    requires Shaped(e) && e.active == s.active[h := c] && OnlyClassChanged(s, e, c)
    requires e.lists[c] == s.lists[c] + [Node(h, p)]
    requires IsAggregate(s.classes[c], e.lists[c], e.targets[c])
    ensures Valid(e)
    ensures h !in Owners(s.lists[c])
    ensures Ledger(e.lists[c]) == Ledger(s.lists[c])[h := p]
  {
    var l := s.lists[c];
    if h in Owners(l) {
      OwnerIsActive(s, c, h);
    }
    AddNode(l, h, p);
    AggregateIsGetValue(e.classes[c], e.lists[c], e.targets[c]);
    RelinkValid(s, h, c, p, e);
  }

  /**
   * `pm_qos_update_request`: nothing happens for a NULL or inactive handle,
   * or when the request (default-substituted and clamped) equals the node's
   * current priority.  Otherwise the node is re-linked with the new value:
   * the handle keeps exactly one entry, holding that value, and no other
   * entry changes.
   */
  function UpdateRequest(s: Engine, h: Option<HandleId>, v: Int32): (r: Step)
    requires Valid(s)
    ensures Valid(r.engine)
    ensures h.None? || h.value !in s.active ==> r == Step(s, None)
    ensures h.Some? && h.value in s.active ==>
              var c := s.active[h.value];
              var t := VerifyRequest(s, c, Substitute(s, c, v));
              && h.value in Ledger(s.lists[c])
              && (t == Ledger(s.lists[c])[h.value] ==> r == Step(s, None))
              && r.engine.active == s.active
              && Ledger(r.engine.lists[c]) == Ledger(s.lists[c])[h.value := t]
              && OnlyClassChanged(s, r.engine, c)
              && NotifiedOnChange(s, r, c)
  {
    if h.None? then Step(s, None)
    else if h.value !in s.active then Step(s, None)
    else
      var c := s.active[h.value];
      Reprioritize(s, h.value, VerifyRequest(s, c, Substitute(s, c, v)))
  }

  /**
   * The active-handle half of `pm_qos_update_request`: re-links the handle's
   * node with priority `t` unless it already holds `t`.
   */
  function Reprioritize(s: Engine, h: HandleId, t: Int32): (r: Step)
    requires Valid(s) && h in s.active && t != Sentinel
    ensures Valid(r.engine)
    ensures h in Ledger(s.lists[s.active[h]])
    ensures t == Ledger(s.lists[s.active[h]])[h] ==> r == Step(s, None)
    ensures r.engine.active == s.active
    ensures Ledger(r.engine.lists[s.active[h]]) == Ledger(s.lists[s.active[h]])[h := t]
    ensures OnlyClassChanged(s, r.engine, s.active[h])
    ensures NotifiedOnChange(s, r, s.active[h])
  {
    var c := s.active[h];
    var cur := PrioOf(s.lists[c], h);
    LedgerPrio(s.lists[c], h);
    if t != cur then
      var r := UpdateTarget(s, c, Node(h, cur), false, t);
      RelinkStep(s, h, c, t, r);
      r
    else
      UpdateSameValue(Ledger(s.lists[c]), h);
      Step(s, None)
  }

  /** The changed-value half of `Reprioritize`, stated over the facts `update_target` guarantees. */
  lemma RelinkStep(s: Engine, h: HandleId, c: nat, t: Int32, r: Step)
    requires Valid(s) && h in s.active && c == s.active[h] && t != Sentinel
    requires Shaped(r.engine) && r.engine.active == s.active && OnlyClassChanged(s, r.engine, c)
    requires r.engine.lists[c] == Without(s.lists[c], h) + [Node(h, t)]
    requires IsAggregate(s.classes[c], r.engine.lists[c], r.engine.targets[c])
    requires s.targets[c] == GetValue(s.classes[c], s.lists[c]) ==> NotifiedOnChange(s, r, c)
    ensures Valid(r.engine)
    ensures Ledger(r.engine.lists[c]) == Ledger(s.lists[c])[h := t]
    ensures NotifiedOnChange(s, r, c)
  {
    var e := r.engine;
    ReplaceNode(s.lists[c], h, t);
    AggregateIsGetValue(e.classes[c], e.lists[c], e.targets[c]);
    RelinkValid(s, h, c, t, e);
  }

  /**
   * `e` is `s` with the list of class `c` replaced by one that holds the
   * old nodes of other handles and the node `Node(h, p)`, and with `h`
   * active in `c`: the invariant carries over.
   */
  lemma RelinkValid(s: Engine, h: HandleId, c: nat, p: Int32, e: Engine)
    requires Valid(s) && 0 < c < NumClasses && p != Sentinel && (h in s.active ==> s.active[h] == c)
    requires Shaped(e) && OnlyClassChanged(s, e, c) && ActiveIn(s, h, c, e)
    requires Relinked(s.lists[c], e.lists[c], h, p) && e.targets[c] == GetValue(e.classes[c], e.lists[c])
    ensures Valid(e)
  {
    ClassReplaced(s, c, e);
    RelinkNodes(s, h, c, p, e);
    RelinkHandles(s, h, c, e);
  }

  /** `e` has the active handles of `s`, and `h` active in class `c`. */
  ghost predicate ActiveIn(s: Engine, h: HandleId, c: nat, e: Engine) {
    && (forall g :: g in e.active <==> g in s.active || g == h)
    && forall g :: g in e.active ==> e.active[g] == if g == h then c else s.active[g]
  }

  lemma RelinkNodes(s: Engine, h: HandleId, c: nat, p: Int32, e: Engine)
    requires Shaped(s) && NodesLinked(s) && 0 < c < NumClasses && p != Sentinel
    requires h in s.active ==> s.active[h] == c
    requires Shaped(e) && OnlyClassChanged(s, e, c) && ActiveIn(s, h, c, e)
    requires forall n :: n in e.lists[c] ==> (n in s.lists[c] && n.owner != h) || n == Node(h, p)
    ensures NodesLinked(e)
  {
    forall d, n | 0 <= d < NumClasses && n in e.lists[d]
      ensures n.owner in e.active && e.active[n.owner] == d && n.prio != Sentinel
    {
      if d == c {
        if n != Node(h, p) {
          assert n in s.lists[c] && n.owner != h;
        }
      } else {
        assert n in s.lists[d];
        assert n.owner != h;
      }
    }
  }

  lemma RelinkHandles(s: Engine, h: HandleId, c: nat, e: Engine)
    requires Shaped(s) && HandlesLinked(s) && 0 < c < NumClasses
    requires Shaped(e) && OnlyClassChanged(s, e, c) && ActiveIn(s, h, c, e)
    requires Owners(e.lists[c]) == Owners(s.lists[c]) + {h}
    ensures HandlesLinked(e)
  {
    forall g | g in e.active
      ensures 0 < e.active[g] < NumClasses && g in Owners(e.lists[e.active[g]])
    {
      if g != h {
        assert g in s.active && e.active[g] == s.active[g];
      }
    }
  }

  /**
   * `pm_qos_remove_request`: nothing happens for a NULL or inactive handle.
   * Otherwise the node is unlinked, the target recomputed, and the handle
   * zeroed, so it is inactive afterwards; no other entry changes.
   */
  function RemoveRequest(s: Engine, h: Option<HandleId>): (r: Step)
    requires Valid(s)
    ensures Valid(r.engine)
    ensures h.None? || h.value !in s.active ==> r == Step(s, None)
    ensures h.Some? && h.value in s.active ==>
              var c := s.active[h.value];
              && h.value in Ledger(s.lists[c])
              && r.engine.active == s.active - {h.value}
              && Ledger(r.engine.lists[c]) == Ledger(s.lists[c]) - {h.value}
              && OnlyClassChanged(s, r.engine, c)
              && NotifiedOnChange(s, r, c)
  {
    if h.None? then Step(s, None)
    else if h.value !in s.active then Step(s, None)
    else
      var c := s.active[h.value];
      var u := UpdateTarget(s, c, Node(h.value, PrioOf(s.lists[c], h.value)), true, Sentinel);
      var r := Step(u.engine.(active := u.engine.active - {h.value}), u.event);
      UnlinkStep(s, h.value, c, u.engine, r.engine);
      r
  }

  /**
   * The effect of `pm_qos_remove_request`, stated over the facts
   * `update_target` guarantees for `u` and the zeroed handle in `e`.
   */
  lemma UnlinkStep(s: Engine, h: HandleId, c: nat, u: Engine, e: Engine)
    requires Valid(s) && h in s.active && c == s.active[h]
    requires Shaped(u) && u.active == s.active && OnlyClassChanged(s, u, c)
    requires u.lists[c] == Without(s.lists[c], h)
    requires IsAggregate(s.classes[c], u.lists[c], u.targets[c])
    requires e == u.(active := u.active - {h})
    ensures Valid(e)
    ensures Ledger(e.lists[c]) == Ledger(s.lists[c]) - {h}
  {
    var l := s.lists[c];
    WithoutFacts(l, h);
    AggregateIsGetValue(e.classes[c], e.lists[c], e.targets[c]);
    ClassReplaced(s, c, e);
    UnlinkedNodes(s, h, c, e);
    UnlinkedHandles(s, h, c, e);
  }

  /**
   * `e` differs from `s` only in class `c`, whose new list is free of
   * duplicates and whose cache holds its aggregate.
   */
  lemma ClassReplaced(s: Engine, c: nat, e: Engine)
    requires Shaped(s) && ListsSound(s) && c < NumClasses
    requires Shaped(e) && OnlyClassChanged(s, e, c)
    requires Distinct(e.lists[c]) && e.targets[c] == GetValue(e.classes[c], e.lists[c])
    ensures ListsSound(e)
  {
    forall d | 0 <= d < NumClasses
      ensures Distinct(e.lists[d]) && e.targets[d] == GetValue(e.classes[d], e.lists[d])
    {
      if d != c {
        assert e.lists[d] == s.lists[d] && e.targets[d] == s.targets[d];
      }
    }
  }

  lemma UnlinkedNodes(s: Engine, h: HandleId, c: nat, e: Engine)
    requires Shaped(s) && NodesLinked(s) && h in s.active && c == s.active[h] && c < NumClasses
    requires Shaped(e) && e.active == s.active - {h}
    requires OnlyClassChanged(s, e, c) && e.lists[c] == Without(s.lists[c], h)
    ensures NodesLinked(e)
  {
    forall d, n | 0 <= d < NumClasses && n in e.lists[d]
      ensures n.owner in e.active && e.active[n.owner] == d && n.prio != Sentinel
    {
      if d != c {
        assert e.lists[d] == s.lists[d];
      }
      assert n in s.lists[d];
    }
  }

  lemma UnlinkedHandles(s: Engine, h: HandleId, c: nat, e: Engine)
    requires Shaped(s) && HandlesLinked(s) && h in s.active && c == s.active[h] && c < NumClasses
    requires Shaped(e) && e.active == s.active - {h}
    requires OnlyClassChanged(s, e, c) && e.lists[c] == Without(s.lists[c], h)
    ensures HandlesLinked(e)
  {
    WithoutOwners(s.lists[c], h);
    forall g | g in e.active
      ensures 0 < e.active[g] < NumClasses && g in Owners(e.lists[e.active[g]])
    {
      assert g in s.active && g != h && e.active[g] == s.active[g];
    }
  }
}
