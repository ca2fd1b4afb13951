/** The reproduction-cycle actions of screens/DashboardScreen.js: the
    dispatch in `handleAction`, the guards of `handleStartCycle`,
    `handleConfirmBirth` and `handleStopCycle`, and the low-feed filter of
    `loadData`.

    The screen's React state is a `Screen` value; a handler maps it to the
    state after its updates and the list of persistence calls it makes.
    Those calls (`addCycle`, `confirmBirth`, `stopCycle`, and the reload
    `loadData`) are opaque events: their effect on the data is not part of
    this model. */
module Dashboard {
  import opened Base
  import opened Strings
  import opened Numbers

  /** A doe's current reproduction cycle and its status (`saillie`,
      `gestante`, `allaitante`, or anything else the backend stores). */
  datatype Cycle = Cycle(id: int, statut: string)

  /** A doe as the dashboard lists it; `cycle` is `None` when she has no
      current cycle. */
  datatype Doe = Doe(id: int, cycle: Option<Cycle>)

  /** The persistence calls a handler makes, in order. */
  datatype Call =
    | AddCycle(femelleId: int, date: string)
    | ConfirmBirth(cycleId: int, date: string, vivants: Number, morts: Number)
    | StopCycle(cycleId: int, reason: string)
    | Reload

  /** The dashboard's state: the doe acted on, the three text inputs, and
      the four dialogs. */
  datatype Screen = Screen(
    selected: Option<Doe>,
    dateInput: string,
    vivants: string,
    morts: string,
    datesOpen: bool,
    birthOpen: bool,
    failOpen: bool,
    verifyOpen: bool)

  /** The state on first render; `today` is `new Date().toISOString()`
      up to the `T`. */
  function Initial(today: string): (s: Screen)
    ensures s.selected.None? && s.dateInput == today && s.vivants == "" && s.morts == "0"
    ensures !s.datesOpen && !s.birthOpen && !s.failOpen && !s.verifyOpen
  {
    Screen(None, today, "", "0", false, false, false, false)
  }

  /** A handler's result: the state after its updates and its calls. */
  datatype Outcome = Outcome(screen: Screen, calls: seq<Call>)

  /** The same four dialogs are open. */
  predicate SameDialogs(a: Screen, b: Screen) {
    a.datesOpen == b.datesOpen && a.birthOpen == b.birthOpen
    && a.failOpen == b.failOpen && a.verifyOpen == b.verifyOpen
  }

  // ---------------------------------------------------------------------
  // The three guarded handlers
  // ---------------------------------------------------------------------

  /** `handleStartCycle()`: starts a cycle for the selected doe on the
      entered date and closes the dialog; does nothing without a selected
      doe or with an empty date. */
  function HandleStartCycle(s: Screen): (r: Outcome)
    ensures r.calls == [] <==> s.selected.None? || s.dateInput == ""
    ensures r.calls == [] ==> r.screen == s
    ensures r.calls != [] ==>
              && r.calls == [AddCycle(s.selected.value.id, s.dateInput), Reload]
              && r.screen == s.(datesOpen := false)
  {
    if s.selected.None? || s.dateInput == "" then Outcome(s, [])
    else Outcome(s.(datesOpen := false), [AddCycle(s.selected.value.id, s.dateInput), Reload])
  }

  /** `parseInt(mortsInput || 0)`: an empty field counts as 0. */
  function StillbornCount(morts: string): (r: Number)
    ensures morts == "" ==> r == Int(0)
    ensures morts != "" ==> r == ParseInt(morts, 0)
  {
    var text := if morts == "" then IntText(0) else morts;
    ParseIntOfText(0, "", 0);
    assert IntText(0) + "" == IntText(0);
    ParseInt(text, 0)
  }

  /** `handleConfirmBirth()`: records the birth on the selected doe's
      cycle; does nothing unless a doe with a cycle is selected and the
      live-born field is filled in. */
  function HandleConfirmBirth(s: Screen): (r: Outcome)
    ensures r.calls == [] <==> s.selected.None? || s.selected.value.cycle.None? || s.vivants == ""
    ensures r.calls == [] ==> r.screen == s
    ensures r.calls != [] ==>
              && r.calls == [ConfirmBirth(s.selected.value.cycle.value.id, s.dateInput,
                                          ParseInt(s.vivants, 0), StillbornCount(s.morts)), Reload]
              && r.screen == s.(birthOpen := false)
  {
    if s.selected.None? || s.selected.value.cycle.None? || s.vivants == "" then Outcome(s, [])
    else
      var call := ConfirmBirth(s.selected.value.cycle.value.id, s.dateInput, ParseInt(s.vivants, 0), StillbornCount(s.morts));
      Outcome(s.(birthOpen := false), [call, Reload])
  }

  /** `handleStopCycle(reason)`: ends the selected doe's cycle for `reason`
      and closes the failure dialog; does nothing unless a doe with a cycle
      is selected. */
  function HandleStopCycle(s: Screen, reason: string): (r: Outcome)
    ensures r.calls == [] <==> s.selected.None? || s.selected.value.cycle.None?
    ensures r.calls == [] ==> r.screen == s
    ensures r.calls != [] ==>
              && r.calls == [StopCycle(s.selected.value.cycle.value.id, reason), Reload]
              && r.screen == s.(failOpen := false)
  {
    if s.selected.None? || s.selected.value.cycle.None? then Outcome(s, [])
    else Outcome(s.(failOpen := false), [StopCycle(s.selected.value.cycle.value.id, reason), Reload])
  }

  /** The failure dialog's "Confirmer" button. */
  function ConfirmFailure(s: Screen): Outcome {
    HandleStopCycle(s, "echec")
  }

  // ---------------------------------------------------------------------
  // handleAction
  // ---------------------------------------------------------------------

  /** The next step for a doe that is not being failed, by cycle status,
      applied to the state after the doe has been selected. The
      `allaitante` step is `stop`, the outcome of stopping the cycle. */
  function Advance(s1: Screen, doe: Doe, stop: Outcome): Outcome {
    if doe.cycle.None? then Outcome(s1.(datesOpen := true), [])
    else if doe.cycle.value.statut == "saillie" then Outcome(s1.(verifyOpen := true), [])
    else if doe.cycle.value.statut == "gestante" then Outcome(s1.(vivants := "", morts := "0", birthOpen := true), [])
    else if doe.cycle.value.statut == "allaitante" then stop
    else Outcome(s1, [])
  }

  /** The state once `handleAction` has selected `doe` and reset the date
      input to today. */
  function Select(s: Screen, doe: Doe, today: string): (s1: Screen)
    ensures s1.selected == Some(doe) && s1.dateInput == today && SameDialogs(s1, s)
  {
    s.(selected := Some(doe), dateInput := today)
  }

  /** `handleAction(femelle, actionType)` as written. The state updates it
      schedules take effect only at the next render, so the
      `handleStopCycle('termine')` it calls for a nursing doe still sees
      the doe selected BEFORE this action: it stops that doe's cycle, or
      nothing when no doe with a cycle was selected. */
  function HandleAction(s: Screen, doe: Doe, actionType: string, today: string): (r: Outcome)
    ensures r.screen.selected == Some(doe) && r.screen.dateInput == today
    ensures actionType == "fail" ==> r.calls == [] && r.screen == Select(s, doe, today).(failOpen := true)
    ensures actionType != "fail" && doe.cycle.Some? && doe.cycle.value.statut == "allaitante" ==>
              r.calls == HandleStopCycle(s, "termine").calls
  {
    var s1 := Select(s, doe, today);
    if actionType == "fail" then Outcome(s1.(failOpen := true), [])
    else
      var stale := HandleStopCycle(s, "termine");
      Advance(s1, doe, Outcome(if stale.calls == [] then s1 else s1.(failOpen := false), stale.calls))
  }

  /** `handleAction` as intended: a nursing doe's own cycle is ended with
      reason `termine`. */
  function HandleActionCorrected(s: Screen, doe: Doe, actionType: string, today: string): (r: Outcome)
    ensures r.screen.selected == Some(doe) && r.screen.dateInput == today
    ensures actionType == "fail" ==> r == HandleAction(s, doe, actionType, today)
    ensures actionType != "fail" && !(doe.cycle.Some? && doe.cycle.value.statut == "allaitante") ==>
              r == HandleAction(s, doe, actionType, today)
  {
    var s1 := Select(s, doe, today);
    if actionType == "fail" then Outcome(s1.(failOpen := true), [])
    else Advance(s1, doe, HandleStopCycle(s1, "termine"))
  }

  /** The dispatch: a failure opens the failure dialog whatever the cycle;
      otherwise no cycle opens the start dialog, `saillie` the gestation
      check, `gestante` the birth dialog with fresh inputs, `allaitante`
      ends the doe's cycle, and any other status does nothing. Apart from
      the one dialog, the dialogs are left as they were. */
  lemma ActionDispatch(s: Screen, doe: Doe, actionType: string, today: string)
    ensures var r := HandleActionCorrected(s, doe, actionType, today);
            var s1 := Select(s, doe, today);
            && (actionType == "fail" ==> r.calls == [] && r.screen == s1.(failOpen := true))
            && (actionType != "fail" ==>
                  match doe.cycle
                  case None => r.calls == [] && r.screen == s1.(datesOpen := true)
                  case Some(c) =>
                    if c.statut == "saillie" then r.calls == [] && r.screen == s1.(verifyOpen := true)
                    else if c.statut == "gestante" then
                      r.calls == [] && r.screen == s1.(vivants := "", morts := "0", birthOpen := true)
                    else if c.statut == "allaitante" then
                      r.calls == [StopCycle(c.id, "termine"), Reload] && r.screen == s1.(failOpen := false)
                    else r.calls == [] && r.screen == s1)
  {
  }

  /** The as-written dispatch and the intended one part ways on a nursing
      doe: on a fresh dashboard it ends no cycle at all, and after an
      action on another doe it ends THAT doe's cycle. */
  lemma StaleSelectionOnNursingDoe(today: string)
    ensures var nursing := Doe(1, Some(Cycle(10, "allaitante")));
            var other := Doe(2, Some(Cycle(20, "gestante")));
            var start := Initial(today);
            var afterOther := HandleAction(start, other, "primary", today).screen;
            && HandleAction(start, nursing, "primary", today).calls == []
            && HandleActionCorrected(start, nursing, "primary", today).calls == [StopCycle(10, "termine"), Reload]
            && HandleAction(afterOther, nursing, "primary", today).calls == [StopCycle(20, "termine"), Reload]
            && HandleActionCorrected(afterOther, nursing, "primary", today).calls == [StopCycle(10, "termine"), Reload]
  {
  }

  /** Failing a doe and then confirming ends her own cycle with reason
      `echec`, or does nothing when she has no cycle. */
  lemma FailThenConfirm(s: Screen, doe: Doe, today: string)
    ensures ConfirmFailure(HandleActionCorrected(s, doe, "fail", today).screen).calls
         == if doe.cycle.Some? then [StopCycle(doe.cycle.value.id, "echec"), Reload] else []
  {
  }

  /** Opening the birth dialog for a pregnant doe and entering a live-born
      count records the birth on her cycle, with no stillborn unless some
      are entered. */
  lemma BirthFlow(s: Screen, doe: Doe, today: string, vivants: string)
    requires doe.cycle.Some? && doe.cycle.value.statut == "gestante"
    requires vivants != ""
    ensures var shown := HandleActionCorrected(s, doe, "primary", today).screen;
            var r := HandleConfirmBirth(shown.(vivants := vivants));
            && shown.birthOpen
            && r.calls == [ConfirmBirth(doe.cycle.value.id, today, ParseInt(vivants, 0), Int(0)), Reload]
            && !r.screen.birthOpen
  {
    var shown := HandleActionCorrected(s, doe, "primary", today).screen;
    assert shown.morts == "0" && shown.birthOpen && shown.selected == Some(doe);
    ZeroReadsZero();
  }


  // ---------------------------------------------------------------------
  // Low feed
  // ---------------------------------------------------------------------

  /** A feed as `getAllAliments` reports it, with the days its stock
      lasts. */
  datatype Feed = Feed(id: int, nom: string, joursRestants: int)

  /** `allAliments.filter(a => a.jours_restants <= 7)` */
  function LowFeed(feeds: seq<Feed>): (r: seq<Feed>)
    ensures forall f :: f in r <==> f in feeds && f.joursRestants <= 7
    ensures |r| <= |feeds|
    decreases |feeds|
  {
    if |feeds| == 0 then []
    else
      var rest := LowFeed(feeds[1..]);
      assert feeds == [feeds[0]] + feeds[1..];
      if feeds[0].joursRestants <= 7 then [feeds[0]] + rest else rest
  }

  /** The filter keeps the list's order: filtering a concatenation is
      concatenating the filtered parts. */
  lemma {:induction false} LowFeedAppend(a: seq<Feed>, b: seq<Feed>)
    ensures LowFeed(a + b) == LowFeed(a) + LowFeed(b)
    decreases |a|
  {
    if |a| > 0 {
      assert (a + b)[1..] == a[1..] + b;
      assert (a + b)[0] == a[0];
      LowFeedAppend(a[1..], b);
    } else {
      assert a + b == b;
    }
  }

  /** A listed feed is drawn in the error colour when it lasts fewer than
      3 days, in the warning colour otherwise. */
  predicate CriticalHighlight(f: Feed) {
    f.joursRestants < 3
  }
}
