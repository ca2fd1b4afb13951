/** The feed screen of screens/AlimentsScreen.js: the stock status each
    feed is drawn with, the label of its remaining days, and the add/edit
    dialog whose save either updates the feed being edited or adds one.

    The feed rows come from `getAllAliments`, whose days-remaining formula
    is not part of this model; the stock in kilograms is a floating-point
    value and is carried as the text the dialog shows. The writes
    `addAliment` and `updateAliment` are opaque events. */
module AlimentsForm {
  import opened Base
  import opened Strings
  import opened Numbers
  import Dashboard

  /** A feed row as listed: its stock as text, the daily ration per rabbit
      in grams, and the days its stock lasts (999 when it never runs out). */
  datatype Aliment = Aliment(id: int, nom: string, stockKg: string, consommationG: int, joursRestants: int)

  /** The colour band a feed is drawn in. */
  datatype Level = Critical | Warning | Fine

  /** The sentinel for a stock that never runs out. */
  const Unlimited: int := 999

  /** `renderItem`'s thresholds: at most 3 days is critical, at most 7 is a
      warning, anything longer keeps the default. */
  function FeedLevel(jours: int): (l: Level)
    ensures l == Critical <==> jours <= 3
    ensures l == Warning <==> 3 < jours <= 7
    ensures l == Fine <==> jours > 7
  {
    if jours <= 3 then Critical
    else if jours <= 7 then Warning
    else Fine
  }

  /** The chip's label: `Infini` for the sentinel, `<n> jours` otherwise;
      a number label reads back as the days it shows. */
  function DaysLabel(jours: int): (s: string)
    ensures jours == Unlimited <==> s == "Infini"
    ensures jours != Unlimited ==> ParseInt(s, 0) == Int(jours)
  {
    if jours == Unlimited then "Infini"
    else
      ParseIntOfText(jours, " jours", 0);
      IntTextNotInfini(jours);
      IntText(jours) + " jours"
  }

  /** Decimal text never starts with a letter. */
  lemma IntTextNotInfini(n: int)
    ensures IntText(n) + " jours" != "Infini"
  {
    IntTextParts(n, " jours");
    var d := DecimalText(if n < 0 then -n else n);
    DecimalTextRoundTrip(if n < 0 then -n else n);
    assert IsDigit(d[0]);
  }

  /** The dialog's state: shown or not, the id of the feed being edited
      (`None` when adding), and the three text inputs. */
  datatype Form = Form(visible: bool, editing: Option<int>, nom: string, stockKg: string, consommationG: string)

  /** The writes the dialog makes; the stock goes to `parseFloat`, which
      this model leaves out, so the write carries its text. */
  datatype Call =
    | AddAliment(nom: string, stockKg: string, consommationG: Number)
    | UpdateAliment(id: int, nom: string, stockKg: string, consommationG: Number)
    | Reload

  /** The ration the dialog proposes for a new feed. */
  const DefaultConsommation: string := "150"

  /** `handleAdd()`: a blank dialog with the default ration. */
  function HandleAdd(): (r: Form)
    ensures r.visible && r.editing.None? && r.nom == "" && r.stockKg == ""
    ensures r.consommationG == DefaultConsommation
  {
    Form(true, None, "", "", DefaultConsommation)
  }

  /** `handleEdit(aliment)`: the dialog filled in with the feed's values;
      the ration reads back as itself. */
  function HandleEdit(a: Aliment): (r: Form)
    ensures r.visible && r.editing == Some(a.id) && r.nom == a.nom && r.stockKg == a.stockKg
    ensures ParseInt(r.consommationG, 0) == Int(a.consommationG)
  {
    ParseIntOfText(a.consommationG, "", 0);
    assert IntText(a.consommationG) + "" == IntText(a.consommationG);
    Form(true, Some(a.id), a.nom, a.stockKg, IntText(a.consommationG))
  }

  /** The dialog after a save, and the calls the save made, in order. */
  datatype Saved = Saved(form: Form, calls: seq<Call>)

  /** `handleSave()`: nothing at all when a field is empty (no trimming);
      otherwise `updateAliment` for the feed being edited or `addAliment`,
      with the ration through `parseInt`, then the dialog is hidden (its
      inputs are kept) and the list reloaded. */
  function HandleSave(f: Form): (r: Saved)
    ensures r.calls == [] <==> f.nom == "" || f.stockKg == "" || f.consommationG == ""
    ensures r.calls == [] ==> r.form == f
    ensures r.calls != [] ==>
              && r.form == f.(visible := false)
              && |r.calls| == 2 && r.calls[1] == Reload
              && (f.editing.Some? ==> r.calls[0] == UpdateAliment(f.editing.value, f.nom, f.stockKg, ParseInt(f.consommationG, 0)))
              && (f.editing.None? ==> r.calls[0] == AddAliment(f.nom, f.stockKg, ParseInt(f.consommationG, 0)))
  {
    if f.nom == "" || f.stockKg == "" || f.consommationG == "" then Saved(f, [])
    else
      var conso := ParseInt(f.consommationG, 0);
      var write := match f.editing
                   case Some(id) => UpdateAliment(id, f.nom, f.stockKg, conso)
                   case None => AddAliment(f.nom, f.stockKg, conso);
      Saved(f.(visible := false), [write, Reload])
  }

  /** Reopening a feed and saving it unchanged writes back its own values. */
  lemma EditSaveRoundTrip(a: Aliment)
    requires a.nom != "" && a.stockKg != ""
    ensures HandleSave(HandleEdit(a)).calls
         == [UpdateAliment(a.id, a.nom, a.stockKg, Int(a.consommationG)), Reload]
  {
    var e := HandleEdit(a);
    IntTextParts(a.consommationG, "");
    DecimalTextRoundTrip(if a.consommationG < 0 then -a.consommationG else a.consommationG);
    assert e.consommationG != "";
  }

  /** A feed in the dashboard's low-feed list is exactly one drawn here in
      the critical or warning colour; the dashboard's red highlight agrees
      with the critical colour except at exactly 3 days, which is critical
      here and only a warning on the dashboard. */
  lemma ThresholdsAgainstDashboard(feeds: seq<Dashboard.Feed>, f: Dashboard.Feed)
    ensures f in Dashboard.LowFeed(feeds) <==> f in feeds && FeedLevel(f.joursRestants) != Fine
    ensures Dashboard.CriticalHighlight(f) ==> FeedLevel(f.joursRestants) == Critical
    ensures (FeedLevel(f.joursRestants) == Critical && !Dashboard.CriticalHighlight(f)) <==> f.joursRestants == 3
  {
  }

  /** The unlimited sentinel is never a low feed. */
  lemma UnlimitedIsFine()
    ensures FeedLevel(Unlimited) == Fine && DaysLabel(Unlimited) == "Infini"
  {
  }
}
