/**
 The tab container of the settings dialog.

 It owns one draft per configured tab (initialised from the tabs' props, in
 order), replaces a tab's draft wholesale when that tab reports a change,
 submits every draft to its tab and then calls the outer submit handler, and
 renders nothing, a single tab's content, or a tab strip depending on how
 many tabs are configured.

 Type parameters: `S` is a tab's property bag (its draft state), `V` a
 renderable thing (a component reference or ready-made content).
 */
module TabContainer {

  datatype Option<T> = None | Some(value: T)

  /**
   A configured tab: label key, CSS class, component, initial props, and
   ready-made content. `labelKey` is the tab's `label` field, renamed because
   `label` is a Dafny keyword.
   */
  datatype Tab<S, V> = Tab(labelKey: string, className: string, component: V, props: S, content: V)

  /**
   The container: its props (`tabs`, `defaultTab`, which may be undefined)
   and its state (`tabStates`, one draft per tab).
   */
  datatype Container<S, V> = Container(tabs: seq<Tab<S, V>>, defaultTab: Option<int>, tabStates: seq<S>)

  /** The container invariant: exactly one draft per tab, positionally aligned. */
  predicate Valid<S, V>(c: Container<S, V>) {
    |c.tabStates| == |c.tabs|
  }

  // ---------------------------------------------------------------------------
  // Drafts
  // ---------------------------------------------------------------------------

  /** The constructor: each tab's draft starts as that tab's props. */
  function Init<S, V>(tabs: seq<Tab<S, V>>, defaultTab: Option<int>): (c: Container<S, V>)
    ensures Valid(c)
    ensures c.tabs == tabs && c.defaultTab == defaultTab
    ensures forall i :: 0 <= i < |tabs| ==> c.tabStates[i] == tabs[i].props
  {
    Container(tabs, defaultTab, seq(|tabs|, i requires 0 <= i < |tabs| => tabs[i].props))
  }

  /**
   A tab reports its state: the draft at `tabId` becomes `state`, as a whole
   (no merge with the previous draft). Indices at or past the end, which
   would grow the underlying array, are outside this model.
   */
  function OnTabStateChange<S, V>(c: Container<S, V>, tabId: int, state: S): (c': Container<S, V>)
    requires 0 <= tabId < |c.tabStates|
    ensures c'.tabs == c.tabs && c'.defaultTab == c.defaultTab
    ensures |c'.tabStates| == |c.tabStates|
    ensures Valid(c) ==> Valid(c')
    ensures c'.tabStates[tabId] == state
    ensures forall i :: 0 <= i < |c.tabStates| && i != tabId ==> c'.tabStates[i] == c.tabStates[i]
  {
    c.(tabStates := c.tabStates[tabId := state])
  }

  /** A second report for the same tab overrides the first entirely. */
  lemma LastReportWins<S, V>(c: Container<S, V>, tabId: int, first: S, second: S)
    requires 0 <= tabId < |c.tabStates|
    ensures OnTabStateChange(OnTabStateChange(c, tabId, first), tabId, second) == OnTabStateChange(c, tabId, second)
  {
    assert c.tabStates[tabId := first][tabId := second] == c.tabStates[tabId := second];
  }

  /** Reports for different tabs do not interfere: their order does not matter. */
  lemma ReportsCommute<S, V>(c: Container<S, V>, i: int, a: S, j: int, b: S)
    requires 0 <= i < |c.tabStates| && 0 <= j < |c.tabStates| && i != j
    ensures OnTabStateChange(OnTabStateChange(c, i, a), j, b) == OnTabStateChange(OnTabStateChange(c, j, b), i, a)
  {
    assert c.tabStates[i := a][j := b] == c.tabStates[j := b][i := a];
  }

  /** One change notification: a tab index and the state that tab reports. */
  datatype Change<S> = Change(tabId: int, state: S)

  predicate ChangesInRange<S>(n: nat, changes: seq<Change<S>>) {
    forall k :: 0 <= k < |changes| ==> 0 <= changes[k].tabId < n
  }

  /** The container after the notifications `changes`, handled first to last. */
  function Replay<S, V>(c: Container<S, V>, changes: seq<Change<S>>): (c': Container<S, V>)
    requires ChangesInRange(|c.tabStates|, changes)
    ensures c'.tabs == c.tabs && c'.defaultTab == c.defaultTab
    ensures |c'.tabStates| == |c.tabStates|
    decreases |changes|
  {
    if changes == [] then c
    else
      var last := changes[|changes| - 1];
      OnTabStateChange(Replay(c, changes[..|changes| - 1]), last.tabId, last.state)
  }

  /** The state in the last notification for tab `i` among `changes`, or `d` when there is none. */
  function Latest<S>(changes: seq<Change<S>>, i: int, d: S): S
    decreases |changes|
  {
    if changes == [] then d
    else if changes[|changes| - 1].tabId == i then changes[|changes| - 1].state
    else Latest(changes[..|changes| - 1], i, d)
  }

  /**
   After any sequence of notifications each draft is exactly the state in the
   last notification for that tab, or the draft it had before if there was none.
   */
  lemma {:induction false} ReplayLatest<S, V>(c: Container<S, V>, changes: seq<Change<S>>, i: int)
    requires ChangesInRange(|c.tabStates|, changes)
    requires 0 <= i < |c.tabStates|
    ensures Replay(c, changes).tabStates[i] == Latest(changes, i, c.tabStates[i])
    decreases |changes|
  {
    if changes != [] {
      var init := changes[..|changes| - 1];
      assert ChangesInRange(|c.tabStates|, init) by {
        forall k | 0 <= k < |init|
          ensures 0 <= init[k].tabId < |c.tabStates|
        {
          assert init[k] == changes[k];
        }
      }
      ReplayLatest(c, init, i);
    }
  }

  // ---------------------------------------------------------------------------
  // Submit
  // ---------------------------------------------------------------------------

  /** A call made on submit: a tab's submit callback with its draft, or the outer handler. */
  datatype Call<S> = TabSubmit(index: nat, state: S) | OuterSubmit

  /** The submit calls for the drafts `states` of tabs `k`, `k + 1`, ..., and then the outer handler. */
  function SubmitCalls<S>(states: seq<S>, k: nat): (trace: seq<Call<S>>)
    ensures |trace| == |states| + 1
    ensures forall j :: 0 <= j < |states| ==> trace[j] == TabSubmit(k + j, states[j])
    ensures trace[|states|] == OuterSubmit
    decreases |states|
  {
    if states == [] then [OuterSubmit] else [TabSubmit(k, states[0])] + SubmitCalls(states[1..], k + 1)
  }

  /**
   `_onSubmit`: each tab's submit callback with that tab's draft, in tab
   order, then the outer `onSubmit`, last.
   */
  function Submit<S, V>(c: Container<S, V>): (trace: seq<Call<S>>)
    requires Valid(c)
    ensures |trace| == |c.tabs| + 1
    ensures forall i :: 0 <= i < |c.tabs| ==> trace[i] == TabSubmit(i, c.tabStates[i])
    ensures trace[|c.tabs|] == OuterSubmit
  {
    SubmitCalls(c.tabStates, 0)
  }

  /** The number of calls to tab `i`'s submit callback in `trace`. */
  function TabSubmitCount<S>(trace: seq<Call<S>>, i: nat): nat
    decreases |trace|
  {
    if trace == [] then 0
    else (if trace[0].TabSubmit? && trace[0].index == i then 1 else 0) + TabSubmitCount(trace[1..], i)
  }

  /** The number of calls to the outer handler in `trace`. */
  function OuterSubmitCount<S>(trace: seq<Call<S>>): nat
    decreases |trace|
  {
    if trace == [] then 0 else (if trace[0].OuterSubmit? then 1 else 0) + OuterSubmitCount(trace[1..])
  }

  /** For drafts of tabs `k`, `k + 1`, ..., tab `i`'s callback is called once if `i` is among them, else never. */
  lemma {:induction false} SubmitCallsTabCount<S>(states: seq<S>, k: nat, i: nat)
    ensures TabSubmitCount(SubmitCalls(states, k), i) == if k <= i < k + |states| then 1 else 0
    decreases |states|
  {
    var t := SubmitCalls(states, k);
    if states != [] {
      var rest := SubmitCalls(states[1..], k + 1);
      assert t[1..] == rest;
      assert TabSubmitCount(t, i) == (if k == i then 1 else 0) + TabSubmitCount(rest, i);
      SubmitCallsTabCount(states[1..], k + 1, i);
    } else {
      assert t[1..] == [];
    }
  }

  /** The outer handler is called exactly once. */
  lemma {:induction false} SubmitCallsOuterCount<S>(states: seq<S>, k: nat)
    ensures OuterSubmitCount(SubmitCalls(states, k)) == 1
    decreases |states|
  {
    var t := SubmitCalls(states, k);
    if states != [] {
      SubmitCallsOuterCount(states[1..], k + 1);
      assert t[1..] == SubmitCalls(states[1..], k + 1);
    } else {
      assert t[1..] == [];
    }
  }

  /** Submit calls every tab's callback exactly once, no other index, and the outer handler once. */
  lemma SubmitCallsEachOnce<S, V>(c: Container<S, V>, i: nat)
    requires Valid(c)
    ensures TabSubmitCount(Submit(c), i) == if i < |c.tabs| then 1 else 0
    ensures OuterSubmitCount(Submit(c)) == 1
  {
    SubmitCallsTabCount(c.tabStates, 0, i);
    SubmitCallsOuterCount(c.tabStates, 0);
  }

  /** A report for tab `j` changes only the state tab `j`'s callback receives on submit. */
  lemma SubmitAfterChange<S, V>(c: Container<S, V>, j: int, s: S)
    requires Valid(c) && 0 <= j < |c.tabStates|
    ensures Submit(OnTabStateChange(c, j, s)) == Submit(c)[j := TabSubmit(j, s)]
  {
  }

  /** Right after construction, each tab's callback receives that tab's initial props. */
  lemma SubmitAfterInit<S, V>(tabs: seq<Tab<S, V>>, defaultTab: Option<int>, i: int)
    requires 0 <= i < |tabs|
    ensures Submit(Init(tabs, defaultTab))[i] == TabSubmit(i, tabs[i].props)
  {
  }

  // ---------------------------------------------------------------------------
  // Render
  // ---------------------------------------------------------------------------

  /**
   The element inside a strip entry's `div`: a plain element with a tag name,
   or a mounted tab component. A lowercase JSX tag names a plain element.
   */
  datatype Element<V> = PlainTag(tagName: string) | Mounted(component: V)

  /** The tag name of the plain element each strip entry holds as written. */
  const ComponentTag: string := "component"

  /** One entry of the tab strip. The label is the untranslated label key. */
  datatype TabEntry<S, V> = TabEntry(className: string, element: Element<V>, props: S, labelKey: string, defaultSelected: bool)

  /** What `_renderTabs` produces. `Nothing` carries the warning it logs. */
  datatype Rendering<S, V> = Nothing(warning: string) | Single(content: V) | Strip(entries: seq<TabEntry<S, V>>)

  const NoTabsWarning: string := "No settings tabs configured to display."

  /** The initially selected index: `defaultTab`, or 0 when it is undefined. */
  function DefaultIndex<S, V>(c: Container<S, V>): int {
    match c.defaultTab
    case None => 0
    case Some(d) => d
  }

  /**
   The strip entry for tab `idx`: the tab's class and label, its current
   draft, and as element either the plain `component` tag (`asWritten`) or
   the tab's own component.
   */
  function Entry<S, V>(c: Container<S, V>, idx: nat, asWritten: bool): TabEntry<S, V>
    requires Valid(c) && idx < |c.tabs|
  {
    var tab := c.tabs[idx];
    var element := if asWritten then PlainTag(ComponentTag) else Mounted(tab.component);
    TabEntry(tab.className, element, c.tabStates[idx], tab.labelKey, DefaultIndex(c) == idx)
  }

  /** `_renderTabs`, chosen by the number of configured tabs, with entries built by `Entry`. */
  function RenderWith<S, V>(c: Container<S, V>, asWritten: bool): Rendering<S, V>
    requires Valid(c)
  {
    if |c.tabs| == 1 then Single(c.tabs[0].content)
    else if |c.tabs| > 1 then Strip(seq(|c.tabs|, i requires 0 <= i < |c.tabs| => Entry(c, i, asWritten)))
    else Nothing(NoTabsWarning)
  }

  /**
   `_renderTabs` as written: each strip entry holds the plain element
   `component`, because the tag is lowercase. The tab's own component is
   never mounted.
   */
  function RenderTabsAsWritten<S, V>(c: Container<S, V>): (r: Rendering<S, V>)
    requires Valid(c)
    ensures r.Nothing? <==> |c.tabs| == 0
    ensures r.Nothing? ==> r.warning == NoTabsWarning
    ensures r.Single? <==> |c.tabs| == 1
    ensures r.Single? ==> r.content == c.tabs[0].content
    ensures r.Strip? <==> |c.tabs| > 1
    ensures r.Strip? ==> |r.entries| == |c.tabs|
    ensures r.Strip? ==> forall i :: 0 <= i < |r.entries| ==>
              && r.entries[i].props == c.tabStates[i]
              && r.entries[i].element == PlainTag(ComponentTag)
              && r.entries[i].className == c.tabs[i].className
              && r.entries[i].labelKey == c.tabs[i].labelKey
              && (r.entries[i].defaultSelected <==> DefaultIndex(c) == i)
  {
    RenderWith(c, true)
  }

  /**
   `_renderTabs` as intended: each strip entry mounts its tab's component
   with the current draft. The rest of the model uses this one.
   */
  function RenderTabs<S, V>(c: Container<S, V>): (r: Rendering<S, V>)
    requires Valid(c)
    ensures r.Nothing? <==> |c.tabs| == 0
    ensures r.Nothing? ==> r.warning == NoTabsWarning
    ensures r.Single? <==> |c.tabs| == 1
    ensures r.Single? ==> r.content == c.tabs[0].content
    ensures r.Strip? <==> |c.tabs| > 1
    ensures r.Strip? ==> |r.entries| == |c.tabs|
    ensures r.Strip? ==> forall i :: 0 <= i < |r.entries| ==>
              && r.entries[i].props == c.tabStates[i]
              && r.entries[i].element == Mounted(c.tabs[i].component)
              && r.entries[i].className == c.tabs[i].className
              && r.entries[i].labelKey == c.tabs[i].labelKey
              && (r.entries[i].defaultSelected <==> DefaultIndex(c) == i)
  {
    RenderWith(c, false)
  }

  /**
   As written, no strip entry mounts a tab component, so none of the tabs can
   report a change through `_onTabStateChange`; the intended rendering differs
   from it in the element of every entry and in nothing else.
   */
  lemma {:induction false} AsWrittenMountsNoTab<S, V>(c: Container<S, V>)
    requires Valid(c) && |c.tabs| > 1
    ensures forall i :: 0 <= i < |c.tabs| ==> !RenderTabsAsWritten(c).entries[i].element.Mounted?
    ensures forall i :: 0 <= i < |c.tabs| ==>
              RenderTabs(c).entries[i] == RenderTabsAsWritten(c).entries[i].(element := Mounted(c.tabs[i].component))
  {
  }

  /** Two tabs whose components are `1` and `2`: as written, the first entry holds the plain `component` element, not `1`. */
  lemma AsWrittenTwoTabsExample()
    ensures var tabs := [Tab("a", "x", 1, 0, 0), Tab("b", "y", 2, 0, 0)];
            var c := Init(tabs, None);
            && RenderTabsAsWritten(c).entries[0].element == PlainTag("component")
            && RenderTabs(c).entries[0].element == Mounted(1)
  {
    var tabs := [Tab("a", "x", 1, 0, 0), Tab("b", "y", 2, 0, 0)];
    var c := Init(tabs, None);
    assert |c.tabs| == 2;
  }

  /** At most one strip entry is selected; exactly one when the default index is in range. */
  lemma SelectionIsUnique<S, V>(c: Container<S, V>)
    requires Valid(c) && |c.tabs| > 1
    ensures forall i, j :: 0 <= i < j < |c.tabs| ==>
              !(RenderTabs(c).entries[i].defaultSelected && RenderTabs(c).entries[j].defaultSelected)
    ensures (exists i :: 0 <= i < |c.tabs| && RenderTabs(c).entries[i].defaultSelected)
            <==> 0 <= DefaultIndex(c) < |c.tabs|
  {
    var d := DefaultIndex(c);
    if 0 <= d < |c.tabs| {
      assert RenderTabs(c).entries[d].defaultSelected;
    }
  }

  /** With `defaultTab` undefined, the first entry is the selected one. */
  lemma UndefinedDefaultSelectsFirst<S, V>(c: Container<S, V>)
    requires Valid(c) && |c.tabs| > 1 && c.defaultTab == None
    ensures RenderTabs(c).entries[0].defaultSelected
    ensures forall i :: 0 < i < |c.tabs| ==> !RenderTabs(c).entries[i].defaultSelected
  {
  }

  /** A report for tab `j` shows up in entry `j` of the strip and nowhere else. */
  lemma StripShowsReportedState<S, V>(c: Container<S, V>, j: int, s: S)
    requires Valid(c) && |c.tabs| > 1 && 0 <= j < |c.tabStates|
    ensures RenderTabs(OnTabStateChange(c, j, s)).entries
            == RenderTabs(c).entries[j := RenderTabs(c).entries[j].(props := s)]
  {
  }

  /** A single tab is rendered from its ready-made content: drafts and `defaultTab` play no part. */
  lemma SingleTabIgnoresDrafts<S, V>(c: Container<S, V>, tabStates: seq<S>, defaultTab: Option<int>)
    requires Valid(c) && |c.tabs| == 1 && |tabStates| == 1
    ensures RenderTabs(c.(tabStates := tabStates, defaultTab := defaultTab)) == RenderTabs(c)
  {
  }
}
