/**
 The action creators of the settings feature.

 Two of them only build records: the view-visibility action and the request
 to open the settings dialog. The other two, the submit handlers of the
 "More" and "Profile" tabs, compare the snapshot a tab submits with the
 current snapshot field by field (strict inequality on primitive values) and
 issue one side-effecting call per changed field. Here those calls are not
 performed: each handler returns the ordered list of `Effect`s it would issue.
 */
module SettingsActions {

  // ---------------------------------------------------------------------------
  // Record-shaped action creators
  // ---------------------------------------------------------------------------

  /** The action-type marker of the visibility action. */
  datatype ActionType = SetSettingsViewVisibleType

  /** `{ type, visible }`: the store action that shows or hides the settings view. */
  datatype ViewAction = ViewAction(actionType: ActionType, visible: bool)

  /** The dialog components this feature can ask to open. */
  datatype DialogComponent = SettingsDialog

  /** The props handed to the settings dialog: `{ defaultTab }`. */
  datatype SettingsDialogProps = SettingsDialogProps(defaultTab: string)

  /** A request to the generic dialog opener: which dialog, with which props. */
  datatype OpenDialogRequest = OpenDialogRequest(component: DialogComponent, props: SettingsDialogProps)

  function SetSettingsViewVisible(visible: bool): (a: ViewAction)
    ensures a.actionType == SetSettingsViewVisibleType
    ensures a.visible == visible
  {
    ViewAction(SetSettingsViewVisibleType, visible)
  }

  /** Every visibility action is the one built from its own `visible` field. */
  lemma ViewActionRoundTrip(a: ViewAction)
    ensures SetSettingsViewVisible(a.visible) == a
  {
  }

  function OpenSettingsDialog(defaultTab: string): (r: OpenDialogRequest)
    ensures r.component == SettingsDialog
    ensures r.props.defaultTab == defaultTab
  {
    OpenDialogRequest(SettingsDialog, SettingsDialogProps(defaultTab))
  }

  /** Every request for the settings dialog is the one built from its own `defaultTab`. */
  lemma OpenSettingsDialogRoundTrip(r: OpenDialogRequest)
    ensures OpenSettingsDialog(r.props.defaultTab) == r
  {
  }

  // ---------------------------------------------------------------------------
  // Settings snapshots and effects
  // ---------------------------------------------------------------------------

  /** The values a settings tab shows and submits. */
  datatype Settings = Settings(
    displayName: string,
    email: string,
    followMe: bool,
    startAudioMuted: bool,
    startVideoMuted: bool,
    language: string)

  /** The side-effecting calls the submit handlers issue. */
  datatype Effect =
    | ChangeDisplayName(name: string)
    | ChangeEmail(address: string)
    | SetFollowMe(enabled: bool)
    | SetStartMutedPolicy(audioMuted: bool, videoMuted: bool)
    | ChangeLanguage(code: string)

  /** The setting a call is about; the two start-muted flags form one group. */
  datatype Group = DisplayNameGroup | EmailGroup | FollowMeGroup | MutePolicyGroup | LanguageGroup

  function GroupOf(e: Effect): Group {
    match e
    case ChangeDisplayName(_) => DisplayNameGroup
    case ChangeEmail(_) => EmailGroup
    case SetFollowMe(_) => FollowMeGroup
    case SetStartMutedPolicy(_, _) => MutePolicyGroup
    case ChangeLanguage(_) => LanguageGroup
  }

  /** Position of a group in the order in which the handlers check the fields. */
  function Rank(g: Group): nat {
    match g
    case DisplayNameGroup => 0
    case EmailGroup => 1
    case FollowMeGroup => 2
    case MutePolicyGroup => 3
    case LanguageGroup => 4
  }

  /** Two snapshots disagree on the values of group `g`. */
  predicate Differs(current: Settings, next: Settings, g: Group) {
    match g
    case DisplayNameGroup => current.displayName != next.displayName
    case EmailGroup => current.email != next.email
    case FollowMeGroup => current.followMe != next.followMe
    case MutePolicyGroup =>
      current.startAudioMuted != next.startAudioMuted || current.startVideoMuted != next.startVideoMuted
    case LanguageGroup => current.language != next.language
  }

  /** The one call that brings group `g` to its value in `next`. */
  function EffectFor(next: Settings, g: Group): (e: Effect)
    ensures GroupOf(e) == g
  {
    match g
    case DisplayNameGroup => ChangeDisplayName(next.displayName)
    case EmailGroup => ChangeEmail(next.email)
    case FollowMeGroup => SetFollowMe(next.followMe)
    case MutePolicyGroup => SetStartMutedPolicy(next.startAudioMuted, next.startVideoMuted)
    case LanguageGroup => ChangeLanguage(next.language)
  }

  /**
   What a call does to the settings once it has taken effect: it sets the
   setting(s) it names and nothing else. This is the meaning the diff is
   checked against; the calls themselves belong to other components.
   */
  function Apply(s: Settings, e: Effect): (t: Settings)
    ensures EffectFor(t, GroupOf(e)) == e
    ensures forall g :: g != GroupOf(e) ==> !Differs(s, t, g)
  {
    match e
    case ChangeDisplayName(name) => s.(displayName := name)
    case ChangeEmail(address) => s.(email := address)
    case SetFollowMe(enabled) => s.(followMe := enabled)
    case SetStartMutedPolicy(a, v) => s.(startAudioMuted := a, startVideoMuted := v)
    case ChangeLanguage(code) => s.(language := code)
  }

  /** The settings after the calls `es` have taken effect, first to last. */
  function ApplyAll(s: Settings, es: seq<Effect>): Settings
    decreases |es|
  {
    if es == [] then s else ApplyAll(Apply(s, es[0]), es[1..])
  }

  /** The set of groups the calls `es` touch. */
  function Touched(es: seq<Effect>): set<Group>
    decreases |es|
  {
    if es == [] then {} else {GroupOf(es[0])} + Touched(es[1..])
  }

  /** Calls listed strictly in the order in which the handlers check fields. */
  predicate InCheckOrder(es: seq<Effect>) {
    forall i, j :: 0 <= i < j < |es| ==> Rank(GroupOf(es[i])) < Rank(GroupOf(es[j]))
  }

  // ---------------------------------------------------------------------------
  // The submit handlers
  // ---------------------------------------------------------------------------

  /** The groups in the order in which `submitMoreTab` checks them. */
  const MoreTabChecks: seq<Group> := [DisplayNameGroup, EmailGroup, FollowMeGroup, MutePolicyGroup, LanguageGroup]

  /** The groups `submitProfileTab` checks: the first two of `MoreTabChecks`. */
  const ProfileTabChecks: seq<Group> := [DisplayNameGroup, EmailGroup]

  /** Groups listed strictly in check order. */
  predicate Ascending(gs: seq<Group>) {
    forall i, j :: 0 <= i < j < |gs| ==> Rank(gs[i]) < Rank(gs[j])
  }

  /**
   One check of a handler: if the submitted value of group `g` is strictly
   unequal to the current one, the call carrying the submitted value(s).
   */
  function Check(current: Settings, next: Settings, g: Group): seq<Effect> {
    if Differs(current, next, g) then [EffectFor(next, g)] else []
  }

  /** The checks for the groups `gs`, run one after the other. */
  function Checks(current: Settings, next: Settings, gs: seq<Group>): (r: seq<Effect>)
    ensures |r| <= |gs|
    ensures forall i :: 0 <= i < |r| ==> GroupOf(r[i]) in gs
    decreases |gs|
  {
    if gs == [] then [] else Check(current, next, gs[0]) + Checks(current, next, gs[1..])
  }

  /** Every call the checks issue is for a changed group and carries its submitted value(s). */
  lemma {:induction false} ChecksSound(current: Settings, next: Settings, gs: seq<Group>)
    ensures forall e :: e in Checks(current, next, gs) ==>
              Differs(current, next, GroupOf(e)) && e == EffectFor(next, GroupOf(e))
    decreases |gs|
  {
    if gs != [] {
      ChecksSound(current, next, gs[1..]);
    }
  }

  /** Every changed group among `gs` gets its call. */
  lemma {:induction false} ChecksComplete(current: Settings, next: Settings, gs: seq<Group>)
    ensures forall g :: g in gs && Differs(current, next, g) ==> EffectFor(next, g) in Checks(current, next, gs)
    decreases |gs|
  {
    if gs != [] {
      ChecksComplete(current, next, gs[1..]);
      forall g | g in gs && Differs(current, next, g)
        ensures EffectFor(next, g) in Checks(current, next, gs)
      {
        if g != gs[0] {
          assert g in gs[1..];
        }
      }
    }
  }

  /** The checks issue nothing exactly when no group among `gs` changed. */
  lemma ChecksEmpty(current: Settings, next: Settings, gs: seq<Group>)
    ensures Checks(current, next, gs) == [] <==> forall g :: g in gs ==> !Differs(current, next, g)
  {
    ChecksSound(current, next, gs);
    ChecksComplete(current, next, gs);
    var r := Checks(current, next, gs);
    if r != [] {
      assert r[0] in r;
    }
  }

  /** Checks over groups in check order issue their calls in check order. */
  lemma {:induction false} ChecksOrdered(current: Settings, next: Settings, gs: seq<Group>)
    requires Ascending(gs)
    ensures InCheckOrder(Checks(current, next, gs))
    decreases |gs|
  {
    if gs != [] {
      var rest := Checks(current, next, gs[1..]);
      ChecksOrdered(current, next, gs[1..]);
      forall i | 0 <= i < |rest|
        ensures Rank(gs[0]) < Rank(GroupOf(rest[i]))
      {
        var k :| 0 <= k < |gs[1..]| && gs[1..][k] == GroupOf(rest[i]);
        assert gs[k + 1] == GroupOf(rest[i]);
      }
      var r := Checks(current, next, gs);
      assert r == Check(current, next, gs[0]) + rest;
      forall i, j | 0 <= i < j < |r|
        ensures Rank(GroupOf(r[i])) < Rank(GroupOf(r[j]))
      {
        var c := |Check(current, next, gs[0])|;
        if i < c {
          assert r[j] == rest[j - c];
        } else {
          assert r[i] == rest[i - c] && r[j] == rest[j - c];
        }
      }
    }
  }

  /** `submitMoreTab` checks every group. */
  lemma GroupChecked(g: Group)
    ensures g in MoreTabChecks
  {
    match g
    case DisplayNameGroup => assert MoreTabChecks[0] == g;
    case EmailGroup => assert MoreTabChecks[1] == g;
    case FollowMeGroup => assert MoreTabChecks[2] == g;
    case MutePolicyGroup => assert MoreTabChecks[3] == g;
    case LanguageGroup => assert MoreTabChecks[4] == g;
  }

  /** The groups cover every field: snapshots that agree on every group are equal. */
  lemma SameSettingsIffNoGroupDiffers(current: Settings, next: Settings)
    ensures current == next <==> forall g :: !Differs(current, next, g)
  {
    if current != next {
      if current.displayName != next.displayName { assert Differs(current, next, DisplayNameGroup); }
      else if current.email != next.email { assert Differs(current, next, EmailGroup); }
      else if current.followMe != next.followMe { assert Differs(current, next, FollowMeGroup); }
      else if current.language != next.language { assert Differs(current, next, LanguageGroup); }
      else { assert Differs(current, next, MutePolicyGroup); }
    }
  }

  /** The checks of `submitMoreTab` give every changed group its call. */
  lemma MoreTabChecksComplete(current: Settings, next: Settings)
    ensures forall g :: Differs(current, next, g) ==> EffectFor(next, g) in Checks(current, next, MoreTabChecks)
  {
    ChecksComplete(current, next, MoreTabChecks);
    forall g | Differs(current, next, g)
      ensures EffectFor(next, g) in Checks(current, next, MoreTabChecks)
    {
      GroupChecked(g);
    }
  }

  /** The checks of `submitMoreTab` issue nothing exactly when the snapshots are equal. */
  lemma MoreTabChecksEmpty(current: Settings, next: Settings)
    ensures Checks(current, next, MoreTabChecks) == [] <==> current == next
  {
    ChecksEmpty(current, next, MoreTabChecks);
    SameSettingsIffNoGroupDiffers(current, next);
    if Checks(current, next, MoreTabChecks) == [] {
      forall g
        ensures !Differs(current, next, g)
      {
        GroupChecked(g);
      }
    }
  }

  /**
   `submitMoreTab`: one call per changed field, in the order display name,
   email, follow-me, start-muted policy, language. Both start-muted flags are
   sent together, with their new values, when either of them changed.
   */
  function SubmitMoreTab(current: Settings, next: Settings): (r: seq<Effect>)
    ensures |r| <= 5
    ensures r == [] <==> current == next
    ensures InCheckOrder(r)
    ensures forall e :: e in r ==> Differs(current, next, GroupOf(e)) && e == EffectFor(next, GroupOf(e))
    ensures forall g :: Differs(current, next, g) ==> EffectFor(next, g) in r
  {
    var r := Checks(current, next, MoreTabChecks);
    assert r == [] <==> current == next by {
      MoreTabChecksEmpty(current, next);
    }
    assert InCheckOrder(r) by {
      ChecksOrdered(current, next, MoreTabChecks);
    }
    assert forall e :: e in r ==> Differs(current, next, GroupOf(e)) && e == EffectFor(next, GroupOf(e)) by {
      ChecksSound(current, next, MoreTabChecks);
    }
    assert forall g :: Differs(current, next, g) ==> EffectFor(next, g) in r by {
      MoreTabChecksComplete(current, next);
    }
    r
  }

  /**
   `submitProfileTab`: the display-name and email checks of `submitMoreTab`,
   and nothing else.
   */
  function SubmitProfileTab(current: Settings, next: Settings): (r: seq<Effect>)
    ensures |r| <= 2
    ensures r == [] <==> (current.displayName == next.displayName && current.email == next.email)
    ensures forall e :: e in r ==> GroupOf(e) == DisplayNameGroup || GroupOf(e) == EmailGroup
    ensures forall e :: e in r ==> Differs(current, next, GroupOf(e)) && e == EffectFor(next, GroupOf(e))
    ensures forall g :: g in ProfileTabChecks && Differs(current, next, g) ==> EffectFor(next, g) in r
    ensures InCheckOrder(r)
  {
    var r := Checks(current, next, ProfileTabChecks);
    assert InCheckOrder(r) by {
      ChecksOrdered(current, next, ProfileTabChecks);
    }
    ChecksSound(current, next, ProfileTabChecks);
    ChecksComplete(current, next, ProfileTabChecks);
    ChecksEmpty(current, next, ProfileTabChecks);
    assert Differs(current, next, DisplayNameGroup) <==> current.displayName != next.displayName;
    assert Differs(current, next, EmailGroup) <==> current.email != next.email;
    r
  }

  // ---------------------------------------------------------------------------
  // Properties of the handlers
  // ---------------------------------------------------------------------------

  /** A call carries exactly the values of its group: equal calls mean agreeing snapshots. */
  lemma EffectForIdentifiesGroupValues(a: Settings, b: Settings, g: Group)
    ensures EffectFor(a, g) == EffectFor(b, g) <==> !Differs(a, b, g)
  {
  }

  /** Agreement on a group is transitive. */
  lemma AgreeTrans(a: Settings, b: Settings, c: Settings, g: Group)
    requires !Differs(a, b, g) && !Differs(b, c, g)
    ensures !Differs(a, c, g)
  {
  }

  /** Running the calls `a` and then the calls `b` is running `a + b`. */
  lemma {:induction false} ApplyAllConcat(s: Settings, a: seq<Effect>, b: seq<Effect>)
    ensures ApplyAll(s, a + b) == ApplyAll(ApplyAll(s, a), b)
    decreases |a|
  {
    if a != [] {
      assert (a + b)[0] == a[0];
      assert (a + b)[1..] == a[1..] + b;
      ApplyAllConcat(Apply(s, a[0]), a[1..], b);
      assert ApplyAll(s, a + b) == ApplyAll(Apply(s, a[0]), a[1..] + b);
      assert ApplyAll(s, a) == ApplyAll(Apply(s, a[0]), a[1..]);
    } else {
      assert a + b == b;
    }
  }

  /** The checks for `gs` touch only groups among `gs` that changed. */
  lemma ChecksTouchOnlyChanged(current: Settings, next: Settings, gs: seq<Group>, g: Group)
    requires !(g in gs && Differs(current, next, g))
    ensures g !in Touched(Checks(current, next, gs))
  {
    var r := Checks(current, next, gs);
    ChecksSound(current, next, gs);
    TouchedMembers(r, g);
  }

  /**
   After the calls the checks issue for `gs` have taken effect on `s`, each
   changed group among `gs` holds its submitted value.
   */
  lemma {:induction false} ChecksSetChanged(current: Settings, next: Settings, gs: seq<Group>, s: Settings, g: Group)
    requires g in gs && Differs(current, next, g)
    ensures !Differs(ApplyAll(s, Checks(current, next, gs)), next, g)
    decreases |gs|
  {
    var c := Check(current, next, gs[0]);
    var s' := ApplyAll(s, c);
    ApplyAllConcat(s, c, Checks(current, next, gs[1..]));
    if g in gs[1..] {
      ChecksSetChanged(current, next, gs[1..], s', g);
    } else {
      assert g == gs[0];
      assert s' == Apply(s, EffectFor(next, g));
      EffectForIdentifiesGroupValues(s', next, g);
      ChecksTouchOnlyChanged(current, next, gs[1..], g);
      UntouchedKept(s', Checks(current, next, gs[1..]), g);
      AgreeTrans(ApplyAll(s, Checks(current, next, gs)), s', next, g);
    }
  }

  /** After the checks' calls, every group holds its value in `next` or, if unchanged, its old value. */
  lemma ChecksTakeEffect(current: Settings, next: Settings, gs: seq<Group>, g: Group)
    ensures !Differs(ApplyAll(current, Checks(current, next, gs)), if g in gs then next else current, g)
  {
    if g in gs && Differs(current, next, g) {
      ChecksSetChanged(current, next, gs, current, g);
    } else {
      ChecksTouchOnlyChanged(current, next, gs, g);
      UntouchedKept(current, Checks(current, next, gs), g);
    }
  }

  /** Round trip: once the calls of `submitMoreTab` take effect, the settings are the submitted ones. */
  lemma SubmitMoreTabRoundTrip(current: Settings, next: Settings)
    ensures ApplyAll(current, SubmitMoreTab(current, next)) == next
  {
    var t := ApplyAll(current, SubmitMoreTab(current, next));
    forall g
      ensures !Differs(t, next, g)
    {
      GroupChecked(g);
      ChecksTakeEffect(current, next, MoreTabChecks, g);
    }
    SameSettingsIffNoGroupDiffers(t, next);
  }

  /** Resubmitting the same snapshot once the calls took effect issues nothing. */
  lemma SubmitMoreTabSettles(current: Settings, next: Settings)
    ensures SubmitMoreTab(ApplyAll(current, SubmitMoreTab(current, next)), next) == []
  {
    SubmitMoreTabRoundTrip(current, next);
  }

  /**
   Round trip for `submitProfileTab`: its calls bring display name and email
   to the submitted values and leave every other setting as it was.
   */
  lemma SubmitProfileTabRoundTrip(current: Settings, next: Settings)
    ensures ApplyAll(current, SubmitProfileTab(current, next))
            == current.(displayName := next.displayName, email := next.email)
  {
    var t := ApplyAll(current, SubmitProfileTab(current, next));
    var want := current.(displayName := next.displayName, email := next.email);
    forall g
      ensures !Differs(t, want, g)
    {
      ChecksTakeEffect(current, next, ProfileTabChecks, g);
      if g == DisplayNameGroup || g == EmailGroup {
        assert g in ProfileTabChecks;
        AgreeTrans(t, next, want, g);
      } else {
        assert g !in ProfileTabChecks;
        AgreeTrans(t, current, want, g);
      }
    }
    SameSettingsIffNoGroupDiffers(t, want);
  }

  /** The calls `es` leave every group they do not touch as it was. */
  lemma {:induction false} UntouchedKept(s: Settings, es: seq<Effect>, g: Group)
    requires g !in Touched(es)
    ensures !Differs(s, ApplyAll(s, es), g)
    decreases |es|
  {
    if es != [] {
      UntouchedKept(Apply(s, es[0]), es[1..], g);
      AgreeTrans(s, Apply(s, es[0]), ApplyAll(s, es), g);
    }
  }

  /** A list of calls touches at most as many groups as it has calls. */
  lemma {:induction false} TouchedBound(es: seq<Effect>)
    ensures |Touched(es)| <= |es|
    decreases |es|
  {
    if es != [] {
      TouchedBound(es[1..]);
    }
  }

  /** A group is touched exactly when some call in the list is about it. */
  lemma {:induction false} TouchedMembers(es: seq<Effect>, g: Group)
    ensures g in Touched(es) <==> exists i :: 0 <= i < |es| && GroupOf(es[i]) == g
    decreases |es|
  {
    if es != [] {
      TouchedMembers(es[1..], g);
      if g in Touched(es[1..]) {
        var i :| 0 <= i < |es[1..]| && GroupOf(es[1..][i]) == g;
        assert GroupOf(es[i + 1]) == g;
      }
      if exists i :: 0 <= i < |es| && GroupOf(es[i]) == g {
        var i :| 0 <= i < |es| && GroupOf(es[i]) == g;
        if i > 0 {
          assert GroupOf(es[1..][i - 1]) == g;
        }
      }
    }
  }

  /** Calls in check order touch as many groups as there are calls. */
  lemma {:induction false} TouchedInCheckOrder(es: seq<Effect>)
    requires InCheckOrder(es)
    ensures |Touched(es)| == |es|
    decreases |es|
  {
    if es != [] {
      assert InCheckOrder(es[1..]) by {
        forall i, j | 0 <= i < j < |es[1..]|
          ensures Rank(GroupOf(es[1..][i])) < Rank(GroupOf(es[1..][j]))
        {
          assert es[1..][i] == es[i + 1] && es[1..][j] == es[j + 1];
        }
      }
      TouchedInCheckOrder(es[1..]);
      TouchedMembers(es[1..], GroupOf(es[0]));
    }
  }

  /** A subset of a set of groups has no more elements than the set. */
  lemma SubsetCard(a: set<Group>, b: set<Group>)
    requires a <= b
    ensures |a| <= |b|
  {
    assert b == a + (b - a);
  }

  /**
   No shorter list of calls brings the settings from `current` to `next`:
   `submitMoreTab` issues no call that is not needed.
   */
  lemma SubmitMoreTabMinimal(current: Settings, next: Settings, es: seq<Effect>)
    requires ApplyAll(current, es) == next
    ensures |SubmitMoreTab(current, next)| <= |es|
  {
    var r := SubmitMoreTab(current, next);
    forall g | g in Touched(r)
      ensures g in Touched(es)
    {
      TouchedMembers(r, g);
      var i :| 0 <= i < |r| && GroupOf(r[i]) == g;
      assert r[i] in r;
      if g !in Touched(es) {
        UntouchedKept(current, es, g);
      }
    }
    TouchedInCheckOrder(r);
    SubsetCard(Touched(r), Touched(es));
    TouchedBound(es);
  }

  /** The number of calls among `es` that are about group `g`. */
  function CountGroup(es: seq<Effect>, g: Group): nat
    decreases |es|
  {
    if es == [] then 0 else (if GroupOf(es[0]) == g then 1 else 0) + CountGroup(es[1..], g)
  }

  /** In check order, each touched group has exactly one call and every other group none. */
  lemma {:induction false} CountGroupTouched(es: seq<Effect>, g: Group)
    requires InCheckOrder(es)
    ensures CountGroup(es, g) == if g in Touched(es) then 1 else 0
    decreases |es|
  {
    if es != [] {
      assert InCheckOrder(es[1..]) by {
        forall i, j | 0 <= i < j < |es[1..]|
          ensures Rank(GroupOf(es[1..][i])) < Rank(GroupOf(es[1..][j]))
        {
          assert es[1..][i] == es[i + 1] && es[1..][j] == es[j + 1];
        }
      }
      CountGroupTouched(es[1..], g);
      TouchedMembers(es[1..], g);
    }
  }

  /**
   Exactly one call per changed group, none for an unchanged one; the call
   for the start-muted group carries both submitted flags.
   */
  lemma SubmitMoreTabOnePerChangedGroup(current: Settings, next: Settings, g: Group)
    ensures CountGroup(SubmitMoreTab(current, next), g) == if Differs(current, next, g) then 1 else 0
  {
    var r := SubmitMoreTab(current, next);
    CountGroupTouched(r, g);
    TouchedMembers(r, g);
    if Differs(current, next, g) {
      var i :| 0 <= i < |r| && r[i] == EffectFor(next, g);
    }
  }

  /** Checks over a prefix of the groups issue a prefix of the calls. */
  lemma {:induction false} ChecksPrefix(current: Settings, next: Settings, gs: seq<Group>, k: nat)
    requires k <= |gs|
    ensures Checks(current, next, gs[..k]) <= Checks(current, next, gs)
    decreases k
  {
    if k > 0 {
      assert gs[..k][1..] == gs[1..][..k - 1];
      ChecksPrefix(current, next, gs[1..], k - 1);
    }
  }

  /** On display name and email, `submitProfileTab` issues the first calls of `submitMoreTab`. */
  lemma SubmitProfileTabIsPrefix(current: Settings, next: Settings)
    ensures SubmitProfileTab(current, next) <= SubmitMoreTab(current, next)
  {
    assert ProfileTabChecks == MoreTabChecks[..2];
    ChecksPrefix(current, next, MoreTabChecks, 2);
  }

  /** `submitProfileTab` looks only at display name and email, whatever the other fields hold. */
  lemma SubmitProfileTabIgnoresOtherFields(current: Settings, next: Settings, current': Settings, next': Settings)
    requires current'.displayName == current.displayName && current'.email == current.email
    requires next'.displayName == next.displayName && next'.email == next.email
    ensures SubmitProfileTab(current', next') == SubmitProfileTab(current, next)
  {
  }

  /** Snapshots that differ only in email: the profile handler issues one email change and nothing else. */
  lemma SubmitProfileTabEmailOnly(current: Settings, email: string)
    requires email != current.email
    ensures SubmitProfileTab(current, current.(email := email)) == [ChangeEmail(email)]
  {
    var r := SubmitProfileTab(current, current.(email := email));
    assert EffectFor(current.(email := email), EmailGroup) in r;
  }

  /**
   Snapshots that differ only in the audio flag: one policy call, carrying the
   new audio flag together with the unchanged video flag.
   */
  lemma SubmitMoreTabAudioOnly(current: Settings, audioMuted: bool)
    requires audioMuted != current.startAudioMuted
    ensures SubmitMoreTab(current, current.(startAudioMuted := audioMuted))
            == [SetStartMutedPolicy(audioMuted, current.startVideoMuted)]
  {
    var next := current.(startAudioMuted := audioMuted);
    var r := SubmitMoreTab(current, next);
    assert EffectFor(next, MutePolicyGroup) in r;
  }
}
