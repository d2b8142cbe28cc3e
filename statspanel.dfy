/** Opening the champion stats panel in the two standalone scripts: whether the panel
    counts as open, whether a press on the `.show-champ-stats` button happens, and the
    bounded attempt loop around it. What the browser reports at each step is an
    observation given as a parameter. */
module StatsPanel {
  import opened Wrappers

  /** At most this many presses on the button. */
  const MaxOpenAttempts: nat := 7

  /** What computed style and layout report for `.wf-champion__about__stats`. */
  datatype SectionView = SectionView(displayNone: bool, clientHeight: int, hasOffsetParent: bool)

  /** `isStatsOpen` of the current script: the section exists, is not `display: none`,
      has a positive height and is laid out. */
  function IsStatsOpen(section: Option<SectionView>): (open: bool)
    ensures open <==> section.Some? && !section.value.displayNone &&
                      section.value.clientHeight > 0 && section.value.hasOffsetParent
  {
    match section
    case None => false
    case Some(s) => !s.displayNone && s.clientHeight > 0 && s.hasOffsetParent
  }

  /** `isStatsOpen` of the legacy script: a missing section is closed; otherwise the
      panel counts as open when it is visible or when `#range` is attached. */
  function IsStatsOpenLegacy(section: Option<SectionView>, hasRange: bool): (open: bool)
    ensures section.None? ==> !open
    ensures section.Some? ==> (open <==> IsStatsOpen(section) || hasRange)
  {
    match section
    case None => false
    case Some(s) => (!s.displayNone && s.clientHeight > 0 && s.hasOffsetParent) || hasRange
  }

  /** The legacy test accepts whatever the current one does, and also a hidden section
      whose slider is already attached. */
  lemma OpenTestsCompared(section: Option<SectionView>, hasRange: bool)
    ensures IsStatsOpen(section) ==> IsStatsOpenLegacy(section, hasRange)
    ensures IsStatsOpenLegacy(section, hasRange) && !hasRange ==> IsStatsOpen(section)
    ensures section.Some? && hasRange ==> IsStatsOpenLegacy(section, hasRange)
  {
  }

  // ---------------------------------------------------------------------------------
  // One press on the button

  /** What computed style and layout report for the first `.show-champ-stats`. */
  datatype ButtonView = ButtonView(displayNone: bool, visibilityHidden: bool, hasOffsetParent: bool,
                                   positionFixed: bool, width: real, height: real)

  /** `boundingBox()`. */
  datatype Box = Box(x: real, y: real, width: real, height: real)

  /** What the browser answers during one press: how many buttons the locator counts,
      the button the in-page visibility test finds, the bounding box (`None` when there
      is none or asking for it throws), whether the pointer sequence throws and whether
      the forced fallback click throws. */
  datatype Press = Press(count: nat, button: Option<ButtonView>, box: Option<Box>,
                         pointerThrows: bool, forcedClickThrows: bool)

  /** The outcome of one press: whether it reports success, where the pointer was sent,
      and whether the forced fallback click was tried. */
  datatype Click = Click(clicked: bool, pointer: Option<(real, real)>, forced: bool)

  /** The current script's visibility test. */
  predicate Visible(b: ButtonView) {
    !b.displayNone && !b.visibilityHidden && b.hasOffsetParent && b.width > 0.0
  }

  /** The legacy visibility test: a fixed-position button needs no offset parent, and
      the height must be positive too. */
  predicate VisibleLegacy(b: ButtonView) {
    !b.displayNone && !b.visibilityHidden && (b.hasOffsetParent || b.positionFixed) &&
    b.width > 0.0 && b.height > 0.0
  }

  /** The centre of the bounding box. */
  function Centre(box: Box): (p: (real, real))
    ensures box.width >= 0.0 ==> box.x <= p.0 <= box.x + box.width
    ensures box.height >= 0.0 ==> box.y <= p.1 <= box.y + box.height
    ensures p.0 - box.x == box.x + box.width - p.0 && p.1 - box.y == box.y + box.height - p.1
  {
    (box.x + box.width / 2.0, box.y + box.height / 2.0)
  }

  /** Whether a press gets as far as moving the pointer. */
  predicate Reaches(p: Press, visible: ButtonView -> bool) {
    p.count > 0 && p.button.Some? && visible(p.button.value) && p.box.Some?
  }

  /** `physicalClick`: no press without a button, a visible one and a bounding box;
      once the pointer has been sent to the centre the press reports success, and when
      the pointer sequence throws the forced click is tried and success reported
      regardless. */
  function PhysicalClick(p: Press): (c: Click)
    ensures c.clicked <==> Reaches(p, Visible)
    ensures c.pointer.Some? <==> Reaches(p, Visible)
    ensures c.pointer.Some? ==> c.pointer.value == Centre(p.box.value)
    ensures c.forced <==> Reaches(p, Visible) && p.pointerThrows
  {
    if p.count == 0 then Click(false, None, false)
    else if p.button.None? || !Visible(p.button.value) then Click(false, None, false)
    else if p.box.None? then Click(false, None, false)
    else Click(true, Some(Centre(p.box.value)), p.pointerThrows)
  }

  /** `physicalClickByClass`: the same steps with the legacy visibility test, except that
      a press whose pointer sequence and forced click both throw reports failure. */
  function PhysicalClickByClass(p: Press): (c: Click)
    ensures c.clicked <==> Reaches(p, VisibleLegacy) && !(p.pointerThrows && p.forcedClickThrows)
    ensures c.pointer.Some? <==> Reaches(p, VisibleLegacy)
    ensures c.pointer.Some? ==> c.pointer.value == Centre(p.box.value)
    ensures c.forced <==> Reaches(p, VisibleLegacy) && p.pointerThrows
  {
    if p.count == 0 then Click(false, None, false)
    else if p.button.None? || !VisibleLegacy(p.button.value) then Click(false, None, false)
    else if p.box.None? then Click(false, None, false)
    else if !p.pointerThrows then Click(true, Some(Centre(p.box.value)), false)
    else Click(!p.forcedClickThrows, Some(Centre(p.box.value)), true)
  }

  /** The two presses agree on a laid-out button of positive height whose clicks do not
      both throw; the legacy press alone accepts a fixed button without an offset parent,
      and the current one alone accepts a flat button or two failing clicks. */
  lemma ClicksCompared(p: Press)
    ensures p.button.Some? && p.button.value.hasOffsetParent && p.button.value.height > 0.0 &&
            !(p.pointerThrows && p.forcedClickThrows) ==>
              PhysicalClick(p).clicked == PhysicalClickByClass(p).clicked
    ensures PhysicalClickByClass(p).clicked && p.button.value.hasOffsetParent ==> PhysicalClick(p).clicked
    ensures PhysicalClick(p).clicked && p.pointerThrows && p.forcedClickThrows ==> !PhysicalClickByClass(p).clicked
  {
  }

  // ---------------------------------------------------------------------------------
  // The attempt loops

  /** How an opening run ended: the panel was open before any press, the slider (or, in
      the legacy script, the panel) appeared after press `attempt`, or every press failed
      and the panel was then forced visible or left as it was. `applied` says whether
      the section existed to be forced. */
  datatype Ending = AlreadyOpen | OpenedAt(attempt: nat) | Forced(applied: bool) | LeftAsIs

  datatype OpenRun = OpenRun(clicks: seq<Click>, ending: Ending)

  /** What the current script observes around press `k`: the press itself and whether
      `#range` becomes attached within the wait. */
  datatype Attempt = Attempt(press: Press, rangeAttached: bool)

  /** No press up to `n` (exclusive) made the slider appear. */
  predicate NoneOpened(observe: nat -> Attempt, n: nat) {
    forall j :: 1 <= j < n ==> !observe(j).rangeAttached
  }

  /** `ensureStatsOpen`: nothing when the panel is already open; otherwise up to seven
      presses, stopping as soon as the slider appears after one; when none succeeds, the
      section is forced visible if it is still not open. `initial` and `final` are the
      section as seen before the first press and after the last. */
  method EnsureStatsOpen(initial: Option<SectionView>, observe: nat -> Attempt, final: Option<SectionView>)
    returns (run: OpenRun)
    ensures IsStatsOpen(initial) <==> run.ending == AlreadyOpen
    ensures run.ending == AlreadyOpen ==> run.clicks == []
    ensures run.ending.OpenedAt? ==>
              && 1 <= run.ending.attempt <= MaxOpenAttempts
              && observe(run.ending.attempt).rangeAttached
              && NoneOpened(observe, run.ending.attempt)
              && |run.clicks| == run.ending.attempt
    ensures run.ending.Forced? || run.ending.LeftAsIs? ==>
              |run.clicks| == MaxOpenAttempts && NoneOpened(observe, MaxOpenAttempts + 1)
    ensures run.ending.Forced? <==> !IsStatsOpen(initial) && NoneOpened(observe, MaxOpenAttempts + 1) &&
                                    !IsStatsOpen(final)
    ensures run.ending.Forced? ==> run.ending.applied == final.Some?
    ensures |run.clicks| <= MaxOpenAttempts
    ensures forall j :: 0 <= j < |run.clicks| ==> run.clicks[j] == PhysicalClick(observe(j + 1).press)
  {
    if IsStatsOpen(initial) {
      return OpenRun([], AlreadyOpen);
    }
    var clicks: seq<Click> := [];
    for attempt := 1 to MaxOpenAttempts + 1
      invariant |clicks| == attempt - 1
      invariant NoneOpened(observe, attempt)
      invariant forall j :: 0 <= j < |clicks| ==> clicks[j] == PhysicalClick(observe(j + 1).press)
    {
      var a := observe(attempt);
      clicks := clicks + [PhysicalClick(a.press)];
      if a.rangeAttached {
        return OpenRun(clicks, OpenedAt(attempt));
      }
    }
    if !IsStatsOpen(final) {
      return OpenRun(clicks, Forced(final.Some?));
    }
    return OpenRun(clicks, LeftAsIs);
  }

  /** What the legacy script observes around press `k`: the press, how many buttons are
      left after it (0 when counting throws), whether the slider or a visible section
      appears within the wait, and the section and slider `isStatsOpen` would see. */
  datatype LegacyAttempt = LegacyAttempt(press: Press, buttonsLeft: nat, appeared: bool,
                                         section: Option<SectionView>, hasRange: bool)

  /** Press `k` ends the legacy loop: the panel opened, or the button is gone and the
      panel counts as open. */
  predicate Stops(a: LegacyAttempt) {
    a.appeared || (a.buttonsLeft == 0 && IsStatsOpenLegacy(a.section, a.hasRange))
  }

  predicate NoneStopped(observe: nat -> LegacyAttempt, n: nat) {
    forall j :: 1 <= j < n ==> !Stops(observe(j))
  }

  /** `ensureStatsOpenByClass`: the same loop with the legacy tests, stopping also when
      the button disappeared and the panel counts as open. */
  method EnsureStatsOpenByClass(initial: Option<SectionView>, initialRange: bool,
                                observe: nat -> LegacyAttempt,
                                final: Option<SectionView>, finalRange: bool)
    returns (run: OpenRun)
    ensures IsStatsOpenLegacy(initial, initialRange) <==> run.ending == AlreadyOpen
    ensures run.ending == AlreadyOpen ==> run.clicks == []
    ensures run.ending.OpenedAt? ==>
              && 1 <= run.ending.attempt <= MaxOpenAttempts
              && Stops(observe(run.ending.attempt))
              && NoneStopped(observe, run.ending.attempt)
              && |run.clicks| == run.ending.attempt
    ensures run.ending.Forced? || run.ending.LeftAsIs? ==>
              |run.clicks| == MaxOpenAttempts && NoneStopped(observe, MaxOpenAttempts + 1)
    ensures run.ending.Forced? <==> !IsStatsOpenLegacy(initial, initialRange) &&
                                    NoneStopped(observe, MaxOpenAttempts + 1) &&
                                    !IsStatsOpenLegacy(final, finalRange)
    ensures run.ending.Forced? ==> run.ending.applied == final.Some?
    ensures |run.clicks| <= MaxOpenAttempts
    ensures forall j :: 0 <= j < |run.clicks| ==> run.clicks[j] == PhysicalClickByClass(observe(j + 1).press)
  {
    if IsStatsOpenLegacy(initial, initialRange) {
      return OpenRun([], AlreadyOpen);
    }
    var clicks: seq<Click> := [];
    for attempt := 1 to MaxOpenAttempts + 1
      invariant |clicks| == attempt - 1
      invariant NoneStopped(observe, attempt)
      invariant forall j :: 0 <= j < |clicks| ==> clicks[j] == PhysicalClickByClass(observe(j + 1).press)
    {
      var a := observe(attempt);
      var clicked := PhysicalClickByClass(a.press);
      clicks := clicks + [clicked];
      if a.appeared || (a.buttonsLeft == 0 && IsStatsOpenLegacy(a.section, a.hasRange)) {
        return OpenRun(clicks, OpenedAt(attempt));
      }
    }
    if !IsStatsOpenLegacy(final, finalRange) {
      return OpenRun(clicks, Forced(final.Some?));
    }
    return OpenRun(clicks, LeftAsIs);
  }
}
