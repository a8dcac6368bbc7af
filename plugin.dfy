/**
 * The jQuery plugin around the controller: `$.fn.contextmenu`, which creates at
 * most one controller per element and forwards commands to it, and the
 * right-click handlers: the one `listen()` binds on each element, and the two
 * the document carries, a sweep closing the menus of `[data-toggle="context"]`
 * elements and a delegated `show` for a right-click inside one of them.
 */
module Plugin {
  import opened Wrappers
  import opened Controller

  /** A method name passed as `option` (the event `e` travels with it). */
  datatype Command = ShowCmd(ev: RightClick) | CloseMenuCmd | KeydownCmd(key: Key) | DestroyCmd

  /** The `option` argument: an options object, a method name, or neither. */
  datatype Arg = Configure(options: Options) | Call(cmd: Command) | NoArg

  /** `(typeof option === 'object') && option`, with `false` read as no options at all. */
  function OptionsOf(a: Arg): (o: Options) {
    if a.Configure? then a.options else NoOptions
  }

  /** `data[option].call(data, e)`: a command never changes how the controller was configured. */
  function Run(s: CtrlState, cmd: Command): (r: CtrlState)
    ensures r.element == s.element && r.dataTarget == s.dataTarget && r.customBefore == s.customBefore
    ensures r.isBs4 == s.isBs4 && r.hasDropdown == s.hasDropdown
    ensures cmd != DestroyCmd ==> r.listening == s.listening
  {
    match cmd
    case ShowCmd(ev) => Shown(s, ev)
    case CloseMenuCmd => Closed(s)
    case KeydownCmd(k) => AfterKeydown(s, k)
    case DestroyCmd => Destroyed(s)
  }

  /** The controllers reachable through `$element.data('context')`, by element. */
  type Bound = map<ElemId, CtrlState>

  /** The plugin's work on one element of the collection. */
  function Step(m: Bound, e: Element, a: Arg): (r: Bound) {
    Dispatch(Found(m, e, OptionsOf(a)), e.id, a)
  }

  /** `if (!data) $this.data('context', (data = new ContextMenu($this, options)))`: bound now, and only if it was not before with these options. */
  function Found(m: Bound, e: Element, o: Options): (r: Bound)
    ensures e.id in r && r.Keys == m.Keys + {e.id}
    ensures forall id :: id in m ==> r[id] == m[id]
    ensures e.id !in m ==> r[e.id] == Created(e, o)
  {
    if e.id in m then m else m[e.id := Created(e, o)]
  }

  /** `if (typeof option == 'string') data[option].call(data, e)`, on the controller of `id` and no other. */
  function Dispatch(m: Bound, id: ElemId, a: Arg): (r: Bound)
    requires id in m
    ensures r.Keys == if a == Call(DestroyCmd) then m.Keys - {id} else m.Keys
    ensures forall j :: j in m && j != id ==> r[j] == m[j]
    ensures !a.Call? ==> r == m
  {
    match a
    case Call(DestroyCmd) => m - {id}
    case Call(cmd) => m[id := Run(m[id], cmd)]
    case _ => m
  }

  /** What one element's step does to the bound controllers. */
  lemma StepEffect(m: Bound, e: Element, a: Arg)
    ensures var r := Step(m, e, a);
            // other elements are untouched
            && (forall id :: id in m && id != e.id ==> id in r && r[id] == m[id])
            && r.Keys == (if a == Call(DestroyCmd) then m.Keys - {e.id} else m.Keys + {e.id})
            // an existing controller is reused and later options are ignored
            && (e.id in m && !a.Call? ==> r[e.id] == m[e.id])
            && (e.id !in m && !a.Call? ==> r[e.id] == Created(e, OptionsOf(a)))
            // a command runs on the existing controller, or on a fresh one with no options
            && (a.Call? && a.cmd != DestroyCmd ==>
                  r[e.id] == Run(if e.id in m then m[e.id] else Created(e, NoOptions), a.cmd))
  {
  }

  /** `this.each(...)` over the collection, in order. */
  function ApplyAll(m: Bound, es: seq<Element>, a: Arg): (r: Bound)
    decreases |es|
  {
    if es == [] then m else Step(ApplyAll(m, es[..|es| - 1], a), es[|es| - 1], a)
  }

  /** The keys after a plugin call: every element of the collection is bound, unless destroyed. */
  lemma {:induction false} ApplyAllKeys(m: Bound, es: seq<Element>, o: Options)
    ensures ApplyAll(m, es, Configure(o)).Keys == m.Keys + (set e | e in es :: e.id)
    decreases |es|
  {
    if es != [] {
      var init := es[..|es| - 1];
      ApplyAllKeys(m, init, o);
      assert es == init + [es[|es| - 1]];
      assert (set e | e in es :: e.id) == (set e | e in init :: e.id) + {es[|es| - 1].id};
    }
  }

  /** Configuring never replaces an existing controller. */
  lemma {:induction false} ConfigureKeepsExisting(m: Bound, es: seq<Element>, o: Options)
    ensures var r := ApplyAll(m, es, Configure(o)); forall id :: id in m ==> id in r && r[id] == m[id]
    decreases |es|
  {
    if es != [] {
      ConfigureKeepsExisting(m, es[..|es| - 1], o);
    }
  }

  /** A controller created by a configuring call is the one of an element of the collection, with those options. */
  lemma {:induction false} ConfigureCreatesFromOptions(m: Bound, es: seq<Element>, o: Options)
    ensures var r := ApplyAll(m, es, Configure(o));
            forall id :: id in r && id !in m ==>
              exists i :: 0 <= i < |es| && es[i].id == id && r[id] == Created(es[i], o)
    decreases |es|
  {
    if es != [] {
      var init := es[..|es| - 1];
      ConfigureCreatesFromOptions(m, init, o);
      var prev := ApplyAll(m, init, Configure(o));
      var r := ApplyAll(m, es, Configure(o));
      forall id | id in r && id !in m
        ensures exists i :: 0 <= i < |es| && es[i].id == id && r[id] == Created(es[i], o)
      {
        if id in prev {
          var i :| 0 <= i < |init| && init[i].id == id && prev[id] == Created(init[i], o);
          assert es[i] == init[i];
        } else {
          assert es[|es| - 1].id == id;
        }
      }
    }
  }

  /** Once every element is bound, configuring again changes nothing. */
  lemma {:induction false} ConfigureBoundIsNoop(m: Bound, es: seq<Element>, o: Options)
    requires forall i :: 0 <= i < |es| ==> es[i].id in m
    ensures ApplyAll(m, es, Configure(o)) == m
    decreases |es|
  {
    if es != [] {
      ConfigureBoundIsNoop(m, es[..|es| - 1], o);
      var last := es[|es| - 1];
      assert m[last.id := m[last.id]] == m;
    }
  }

  /** Later calls reuse the controllers of the first: their options have no effect. */
  lemma ReconfigureIgnored(m: Bound, es: seq<Element>, first: Options, later: Options)
    ensures var once := ApplyAll(m, es, Configure(first));
            ApplyAll(once, es, Configure(later)) == once
  {
    var once := ApplyAll(m, es, Configure(first));
    ApplyAllKeys(m, es, first);
    forall i | 0 <= i < |es| ensures es[i].id in once {
      assert es[i] in es;
    }
    ConfigureBoundIsNoop(once, es, later);
  }

  /** The document's direct handler: `closemenu()` on every `[data-toggle="context"]` element that has a controller. */
  function Swept(m: Bound, toggles: seq<ElemId>): (r: Bound)
    ensures r.Keys == m.Keys
  {
    map id | id in m :: if id in toggles then Closed(m[id]) else m[id]
  }

  /** The sweep closes every toggle element's menu and touches nothing else. */
  lemma SweepClosesToggles(m: Bound, toggles: seq<ElemId>)
    ensures Swept(m, toggles).Keys == m.Keys
    ensures forall id :: id in m && id !in toggles ==> Swept(m, toggles)[id] == m[id]
    ensures forall id :: id in m && id in toggles && Consistent(m[id]) ==>
              var r := Swept(m, toggles)[id]; !r.isOpen && !r.itemHandlerBound && !r.htmlHandlerBound
  {
    forall id | id in m && id in toggles && Consistent(m[id]) {
      CloseUnbindsAll(m[id]);
    }
  }

  /** Sweeping one more toggle element closes its controller once more, which changes nothing if it was already. */
  lemma SweptSnoc(m: Bound, toggles: seq<ElemId>, t: ElemId)
    ensures var prev := Swept(m, toggles);
            Swept(m, toggles + [t]) == if t in m then prev[t := Closed(prev[t])] else prev
  {
    var prev := Swept(m, toggles);
    if t in m {
      CloseIdempotent(m[t]);
      assert Swept(m, toggles + [t]) == prev[t := Closed(prev[t])];
    } else {
      assert Swept(m, toggles + [t]) == prev;
    }
  }

  /**
   * A right-click inside the `[data-toggle="context"]` element `t`, the innermost
   * one around the pointer, as jQuery dispatches it. The handler `listen()` bound
   * on `t` runs first when `t` has a controller and that handler fires
   * (`ownFires`; with `scopes` it fires only inside a matching descendant); a
   * `show` that returns `false` stops the event there. Otherwise the event
   * reaches the document, where jQuery runs the delegated handler for `t` before
   * the document's direct handler; the `stopPropagation()` of the delegated
   * handler means the sweep never runs.
   */
  function ToggleRightClick(m: Bound, t: Element, ownFires: bool, ev: RightClick): (r: Bound) {
    if t.id in m && ownFires then
      var own := m[t.id := Shown(m[t.id], ev)];
      if ShowSucceeds(m[t.id], ev) then own else Step(own, t, Call(ShowCmd(ev)))
    else Step(m, t, Call(ShowCmd(ev)))
  }

  /** A right-click: inside a toggle element as above; outside every toggle element and every bound element only the sweep runs. */
  function OnRightClick(m: Bound, toggles: seq<ElemId>, target: Option<Element>, ownFires: bool, ev: RightClick): (r: Bound) {
    if target.Some? then ToggleRightClick(m, target.value, ownFires, ev) else Swept(m, toggles)
  }

  /**
   * Whichever handler shows it, a right-click inside a toggle element ends as one
   * `show` on its controller, created without options if it had none; no other
   * controller changes, so the other menus stay as they were.
   */
  lemma ToggleRightClickShowsOnce(m: Bound, t: Element, ownFires: bool, ev: RightClick)
    ensures ToggleRightClick(m, t, ownFires, ev) == Step(m, t, Call(ShowCmd(ev)))
    ensures var r := ToggleRightClick(m, t, ownFires, ev);
            && r.Keys == m.Keys + {t.id}
            && (forall id :: id in m && id != t.id ==> r[id] == m[id])
            && r[t.id] == Shown(if t.id in m then m[t.id] else Created(t, NoOptions), ev)
  {
    if t.id in m && ownFires && !ShowSucceeds(m[t.id], ev) {
      ShowIdempotent(m[t.id], ev);
      var own := m[t.id := Shown(m[t.id], ev)];
      assert own[t.id := Shown(own[t.id], ev)] == m[t.id := Shown(m[t.id], ev)];
    }
    StepEffect(m, t, Call(ShowCmd(ev)));
  }

  /**
   * What the two document handlers are there for: the sweep first, then the
   * `show` of the toggle element right-clicked. jQuery never runs them in this
   * order for a right-click inside a toggle element (see `OnRightClick`).
   */
  function IntendedRightClick(m: Bound, toggles: seq<ElemId>, target: Option<Element>, ev: RightClick): (r: Bound) {
    var swept := Swept(m, toggles);
    if target.Some? then Step(swept, target.value, Call(ShowCmd(ev))) else swept
  }

  /**
   * In the intended order, after a right-click on a toggle element every other
   * toggle element's menu is closed, the clicked one is shown from Closed, and
   * controllers of other elements are untouched.
   */
  lemma SweepThenShow(m: Bound, toggles: seq<ElemId>, t: Element, ev: RightClick)
    requires forall id :: id in m ==> Consistent(m[id])
    requires t.id in toggles
    ensures var r := IntendedRightClick(m, toggles, Some(t), ev);
            && r.Keys == m.Keys + {t.id}
            && (forall id :: id in r && id in toggles && id != t.id ==> !r[id].isOpen)
            && (forall id :: id in m && id !in toggles ==> r[id] == m[id])
            && r[t.id] == Shown(if t.id in m then Closed(m[t.id]) else Created(t, NoOptions), ev)
  {
    SweepClosesToggles(m, toggles);
    StepEffect(Swept(m, toggles), t, Call(ShowCmd(ev)));
  }

  /**
   * As the code runs, a right-click inside the toggle element `t` leaves the open
   * menu of another toggle element `u` open, where the intended order closes it.
   */
  lemma ToggleClickKeepsOthersOpen(m: Bound, toggles: seq<ElemId>, t: Element, ownFires: bool, ev: RightClick, u: ElemId)
    requires forall id :: id in m ==> Consistent(m[id])
    requires t.id in toggles && u in toggles && u != t.id && u in m && m[u].isOpen
    ensures u in OnRightClick(m, toggles, Some(t), ownFires, ev)
    ensures OnRightClick(m, toggles, Some(t), ownFires, ev)[u].isOpen
    ensures u in IntendedRightClick(m, toggles, Some(t), ev)
    ensures !IntendedRightClick(m, toggles, Some(t), ev)[u].isOpen
  {
    ToggleRightClickShowsOnce(m, t, ownFires, ev);
    SweepThenShow(m, toggles, t, ev);
  }

  /** Every command keeps the controller invariant. */
  lemma RunKeepsConsistent(s: CtrlState, cmd: Command)
    requires Consistent(s)
    ensures Consistent(Run(s, cmd))
  {
    var ev: RightClick, k: Key :| true;
    match cmd
    case ShowCmd(ev') => TransitionsKeepConsistent(s, ev', k);
    case KeydownCmd(k') => TransitionsKeepConsistent(s, ev, k');
    case _ => TransitionsKeepConsistent(s, ev, k);
  }

  /** Every plugin call keeps each bound controller consistent. */
  lemma {:induction false} ApplyAllKeepsConsistent(m: Bound, es: seq<Element>, a: Arg)
    requires forall id :: id in m ==> Consistent(m[id])
    ensures forall id :: id in ApplyAll(m, es, a) ==> Consistent(ApplyAll(m, es, a)[id])
    decreases |es|
  {
    if es != [] {
      var init := es[..|es| - 1];
      ApplyAllKeepsConsistent(m, init, a);
      var prev := ApplyAll(m, init, a);
      var e := es[|es| - 1];
      assert forall id :: id in prev ==> Consistent(prev[id]);
      var s := if e.id in prev then prev[e.id] else Created(e, OptionsOf(a));
      assert Consistent(s);
      if a.Call? {
        RunKeepsConsistent(s, a.cmd);
      }
    }
  }

  /** The plugin call after its first `i` elements. */
  function ApplyFirst(m: Bound, es: seq<Element>, i: nat, a: Arg): (r: Bound)
    requires i <= |es|
  {
    if i == 0 then m else Step(ApplyFirst(m, es, i - 1, a), es[i - 1], a)
  }

  /** After its first `i` elements the call has applied the prefix of that length. */
  lemma {:induction false} ApplyFirstIsPrefix(m: Bound, es: seq<Element>, i: nat, a: Arg)
    requires i <= |es|
    ensures ApplyFirst(m, es, i, a) == ApplyAll(m, es[..i], a)
  {
    if i > 0 {
      ApplyFirstIsPrefix(m, es, i - 1, a);
      assert es[..i][..i - 1] == es[..i - 1];
    }
  }

  /** `Dispatch` by the form of its argument. */
  lemma DispatchCases(m: Bound, id: ElemId, a: Arg)
    requires id in m
    ensures a == Call(DestroyCmd) ==> Dispatch(m, id, a) == m - {id}
    ensures a.Call? && a.cmd.ShowCmd? ==> Dispatch(m, id, a) == m[id := Shown(m[id], a.cmd.ev)]
    ensures a == Call(CloseMenuCmd) ==> Dispatch(m, id, a) == m[id := Closed(m[id])]
    ensures a.Call? && a.cmd.KeydownCmd? ==> Dispatch(m, id, a) == m[id := AfterKeydown(m[id], a.cmd.key)]
    ensures !a.Call? ==> Dispatch(m, id, a) == m
  {
  }

  /** Storing under a key adds at most that value. */
  lemma UpdateValues<K, V>(m: map<K, V>, k: K, v: V)
    ensures m[k := v].Values <= m.Values + {v}
  {
  }

  /** Removing a key adds no value. */
  lemma RemoveValues<K, V>(m: map<K, V>, k: K)
    ensures (m - {k}).Values <= m.Values
  {
  }

  /** Every key of `m` is still in `m'`, with the same value. */
  ghost predicate Keeps<K, V>(m: map<K, V>, m': map<K, V>) {
    forall k :: k in m ==> k in m' && m'[k] == m[k]
  }

  /** Storing a key's own value again, or a new key, keeps what was kept. */
  lemma UpdateKeeps<K, V>(m0: map<K, V>, m: map<K, V>, k: K, v: V)
    requires Keeps(m0, m) && (k in m ==> v == m[k])
    ensures Keeps(m0, m[k := v])
  {
  }

  lemma KeepsTransitive<K, V>(m0: map<K, V>, m1: map<K, V>, m2: map<K, V>)
    requires Keeps(m0, m1) && Keeps(m1, m2)
    ensures Keeps(m0, m2)
  {
  }

  /** Storing under a key and then removing it is removing it. */
  lemma UpdateThenRemove<K, V>(m: map<K, V>, k: K, v: V)
    ensures m[k := v] - {k} == m - {k}
  {
  }

  /**
   * The controllers stored with jQuery's `data('context')`, one per bound
   * element; `model` is their abstract state, element by element.
   */
  class Registry {
    var bound: map<ElemId, ContextMenu>
    ghost var model: Bound

    ghost predicate Valid()
      reads this, bound.Values
    {
      && bound.Keys == model.Keys
      // each controller belongs to the element it is stored under, so no two entries share one
      && forall id :: id in bound ==>
           bound[id].Valid() && bound[id].element.id == id && bound[id].State() == model[id]
    }

    constructor ()
      ensures Valid() && bound == map[] && model == map[]
    {
      bound := map[];
      model := map[];
    }

    /** `$this.data('context')`, creating and storing a controller when there is none. */
    method Find(e: Element, o: Options) returns (c: ContextMenu)
      requires Valid()
      modifies this
      ensures Valid() && e.id in bound && c == bound[e.id]
      ensures bound == old(bound)[e.id := c]
      ensures e.id in old(bound) ==> c == old(bound[e.id])
      ensures e.id !in old(bound) ==> fresh(c)
      ensures model == Found(old(model), e, o)
    {
      if e.id in bound {
        c := bound[e.id];
      } else {
        c := new ContextMenu(e, o);
        bound := bound[e.id := c];
        model := model[e.id := c.State()];
      }
    }

    /** `show(e)` on the controller of `id`; `consumed` is its `return false`. */
    method ShowOn(id: ElemId, ev: RightClick) returns (consumed: bool)
      requires Valid() && id in bound
      modifies this, bound[id]
      ensures Valid() && bound == old(bound)
      ensures model == old(model)[id := Shown(old(model[id]), ev)]
      ensures consumed <==> ShowSucceeds(old(model[id]), ev)
    {
      var c := bound[id];
      consumed := c.Show(ev);
      model := model[id := c.State()];
      forall j | j in bound
        ensures bound[j].Valid() && bound[j].element.id == j && bound[j].State() == model[j]
      {
        if j != id {
          assert bound[j].State() == old(bound[j].State());
        }
      }
    }

    /** `closemenu()` on the controller of `id`. */
    method CloseOn(id: ElemId)
      requires Valid() && id in bound
      modifies this, bound[id]
      ensures Valid() && bound == old(bound)
      ensures model == old(model)[id := Closed(old(model[id]))]
    {
      var c := bound[id];
      c.CloseMenu();
      model := model[id := c.State()];
      forall j | j in bound
        ensures bound[j].Valid() && bound[j].element.id == j && bound[j].State() == model[j]
      {
        if j != id {
          assert bound[j].State() == old(bound[j].State());
        }
      }
    }

    /** `keydown(e)` on the controller of `id`. */
    method KeydownOn(id: ElemId, k: Key)
      requires Valid() && id in bound
      modifies this, bound[id]
      ensures Valid() && bound == old(bound)
      ensures model == old(model)[id := AfterKeydown(old(model[id]), k)]
    {
      var c := bound[id];
      c.Keydown(k);
      model := model[id := c.State()];
      forall j | j in bound
        ensures bound[j].Valid() && bound[j].element.id == j && bound[j].State() == model[j]
      {
        if j != id {
          assert bound[j].State() == old(bound[j].State());
        }
      }
    }

    /** `destroy` on the controller of `id`; the element's data entry is removed with it. */
    method DestroyOn(id: ElemId)
      requires Valid() && id in bound
      modifies this, bound[id]
      ensures Valid() && bound == old(bound) - {id}
      ensures model == old(model) - {id}
      ensures old(bound)[id].State() == Destroyed(old(model)[id])
    {
      var c := bound[id];
      c.Destroy();
      bound := bound - {id};
      model := model - {id};
      forall j | j in bound
        ensures bound[j].Valid() && bound[j].element.id == j && bound[j].State() == model[j]
      {
        assert bound[j].State() == old(bound[j].State());
      }
    }

    /** The method call, if any, on the controller of `id`. */
    method DispatchOn(id: ElemId, a: Arg)
      requires Valid() && id in bound
      modifies this, bound[id]
      ensures Valid()
      ensures model == Dispatch(old(model), id, a)
      ensures bound == if a == Call(DestroyCmd) then old(bound) - {id} else old(bound)
    {
      DispatchCases(model, id, a);
      match a
      case Call(DestroyCmd) => DestroyOn(id);
      case Call(ShowCmd(ev)) => var _ := ShowOn(id, ev);
      case Call(CloseMenuCmd) => CloseOn(id);
      case Call(KeydownCmd(k)) => KeydownOn(id, k);
      case _ =>
    }

    /** The plugin's work on one element: find or create its controller, then run the command. */
    method StepOne(e: Element, a: Arg) returns (c: ContextMenu)
      requires Valid()
      modifies this, bound.Values
      ensures Valid()
      ensures model == Step(old(model), e, a)
      ensures a == Call(DestroyCmd) ==> bound == old(bound) - {e.id}
      ensures a != Call(DestroyCmd) ==> bound == old(bound)[e.id := c]
      ensures e.id in old(bound) ==> c == old(bound[e.id])
      ensures e.id !in old(bound) ==> fresh(c)
      ensures bound.Values <= old(bound.Values) + {c}
      ensures a != Call(DestroyCmd) ==> Keeps(old(bound), bound)
    {
      c := Find(e, OptionsOf(a));
      ghost var found := bound;
      DispatchOn(e.id, a);
      if a == Call(DestroyCmd) {
        UpdateThenRemove(old(bound), e.id, c);
        RemoveValues(found, e.id);
      } else {
        UpdateValues(old(bound), e.id, c);
        UpdateKeeps(old(bound), old(bound), e.id, c);
      }
    }

    /** `$(elements).contextmenu(option, e)`. */
    method Contextmenu(es: seq<Element>, a: Arg)
      requires Valid()
      modifies this, bound.Values
      ensures Valid()
      ensures model == ApplyAll(old(model), es, a)
      ensures forall o :: o in bound.Values ==> o in old(bound.Values) || fresh(o)
      ensures a != Call(DestroyCmd) ==> Keeps(old(bound), bound)
    {
      ghost var created: set<ContextMenu> := {};
      for i := 0 to |es|
        invariant Valid()
        invariant model == ApplyFirst(old(model), es, i, a)
        invariant fresh(created) && bound.Values <= old(bound.Values) + created
        invariant a != Call(DestroyCmd) ==> Keeps(old(bound), bound)
      {
        ghost var prev := bound;
        var c := StepOne(es[i], a);
        if a != Call(DestroyCmd) {
          KeepsTransitive(old(bound), prev, bound);
        }
        if es[i].id !in prev {
          created := created + {c};
        } else {
          assert c in prev.Values;
        }
      }
      ApplyFirstIsPrefix(old(model), es, |es|, a);
      assert es[..|es|] == es;
    }

    /** The sweep: `closemenu()` on the controller of every toggle element. */
    method Sweep(toggles: seq<ElemId>)
      requires Valid()
      modifies this, bound.Values
      ensures Valid() && bound == old(bound)
      ensures model == Swept(old(model), toggles)
    {
      for i := 0 to |toggles|
        invariant Valid() && bound == old(bound)
        invariant model == Swept(old(model), toggles[..i])
      {
        SweptSnoc(old(model), toggles[..i], toggles[i]);
        assert toggles[..i + 1] == toggles[..i] + [toggles[i]];
        if toggles[i] in bound {
          CloseOn(toggles[i]);
        }
      }
      assert toggles[..|toggles|] == toggles;
    }

    /** A right-click, handled as `OnRightClick` describes. */
    method HandleRightClick(toggles: seq<ElemId>, target: Option<Element>, ownFires: bool, ev: RightClick)
      requires Valid()
      modifies this, bound.Values
      ensures Valid()
      ensures model == OnRightClick(old(model), toggles, target, ownFires, ev)
      ensures Keeps(old(bound), bound)
    {
      match target
      case None =>
        Sweep(toggles);
      case Some(t) =>
        if t.id in bound && ownFires {
          // the handler `listen()` bound on the element itself
          var consumed := ShowOn(t.id, ev);
          if consumed {
            return;
          }
        }
        // the delegated document handler, whose `stopPropagation()` skips the sweep
        var c := StepOne(t, Call(ShowCmd(ev)));
    }
  }
}
