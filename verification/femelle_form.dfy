/** The doe form of screens/Femelles/AddEditScreen.js: add mode or edit
    mode from the route parameter, the defaults of a new doe, loading a
    stored doe into the form, and `handleSave`, which refuses a blank
    number and otherwise updates or adds the doe with her birth date in
    `YYYY-MM-DD` form.

    The date picker holds a `Date`; it starts at today, which is a
    parameter. Leaving the screen (`navigation.goBack`) is a flag of the
    result. */
module FemelleForm {
  import opened Base
  import opened Strings
  import opened Calendar
  import opened DateUtils
  import opened Store

  /** The form's state: the four fields and the loading flag. */
  datatype Form = Form(numero: string, clapetId: Option<int>, dateNaissance: JsDate, statut: string, loading: bool)

  const NumeroRequired: string := "Le num\U{00E9}ro est obligatoire"
  const SaveFailed: string := "Impossible de sauvegarder"

  /** `isEdit = !!femelleId`: no route parameter, or the id 0, means a new
      doe is being added. */
  predicate IsEdit(femelleId: Option<int>) {
    femelleId.Some? && femelleId.value != 0
  }

  /** The form on first render: no number, no cage, born today, living. */
  function Initial(today: CivilDate): (f: Form)
    ensures f.numero == "" && f.clapetId.None? && f.dateNaissance == DateOn(today)
    ensures f.statut == Vivante && !f.loading
  {
    Form("", None, DateOn(today), Vivante, false)
  }

  /** `loadFemelle()`: copies the stored doe's number, cage and status into
      the form, and her birth date only when one is stored (a missing or
      empty date keeps the date already shown). A doe that is not found
      makes the copy throw before any field is set, so the form stays as
      it was. */
  function LoadFemelle(f: Form, db: Db, id: int): (r: Form)
    ensures id !in db.femelles.rows ==> r == f
    ensures id in db.femelles.rows ==>
              var row := db.femelles.rows[id];
              && r.numero == row.numero && r.clapetId == row.clapetId && r.statut == row.statut
              && r.loading == f.loading
              && (row.dateNaissance.None? || row.dateNaissance.value == "" ==> r.dateNaissance == f.dateNaissance)
              && (row.dateNaissance.Some? && row.dateNaissance.value != "" ==>
                    r.dateNaissance == NewDate(Text(row.dateNaissance.value)))
  {
    match GetFemelleById(db, id)
    case None => f
    case Some(row) =>
      var date := if row.dateNaissance.Some? && row.dateNaissance.value != ""
                  then NewDate(Text(row.dateNaissance.value)) else f.dateNaissance;
      f.(numero := row.numero, clapetId := row.clapetId, dateNaissance := date, statut := row.statut)
  }

  /** The result of pressing "save": the store after it, the form after it,
      the alert shown (if any), whether the screen was left, and whether
      the loading flag was raised on the way. */
  datatype Saved = Saved(db: Db, form: Form, notice: Option<string>, wentBack: bool, loadingShown: bool)

  /** The doe table `after` is the store's with `row` added under one id,
      an id not yet in use when the store is consistent. */
  ghost predicate AddedDoe(db: Db, after: map<int, Femelle>, row: Femelle) {
    exists id :: (Consistent(db) ==> id !in db.femelles.rows) && after == db.femelles.rows[id := row]
  }

  /** The row a save writes for the form. */
  function RowOf(f: Form): Femelle {
    Femelle(f.numero, f.clapetId, FormatDateIso(Moment(f.dateNaissance)), f.statut)
  }

  /** `handleSave()`: a blank or whitespace-only number is refused and
      nothing else happens. Otherwise the loading flag goes up, the form's
      fields, with the birth date through `formatDateISO`, go to
      `updateFemelle(femelleId, ...)` in edit mode and to `addFemelle(...)`
      otherwise; a success leaves the screen, a failure (a status outside
      the CHECK) alerts; the flag comes down either way. */
  function HandleSave(f: Form, db: Db, femelleId: Option<int>): (r: Saved)
    ensures r.notice == Some(NumeroRequired) <==> IsBlank(f.numero)
    ensures IsBlank(f.numero) ==> r.db == db && r.form == f && !r.wentBack && !r.loadingShown
    ensures !IsBlank(f.numero) ==> r.loadingShown && r.form == f.(loading := false)
    ensures r.wentBack <==> r.notice.None?
    ensures r.notice == Some(SaveFailed) <==>
              && !IsBlank(f.numero)
              && f.statut !in Statuts
              && (IsEdit(femelleId) ==> femelleId.value in db.femelles.rows)
    ensures !r.wentBack ==> r.db == db
    ensures r.wentBack && IsEdit(femelleId) ==>
              if femelleId.value in db.femelles.rows
              then r.db == db.(femelles := db.femelles.(rows := db.femelles.rows[femelleId.value := RowOf(f)]))
              else r.db == db
    ensures r.wentBack && !IsEdit(femelleId) ==>
              && r.db.clapets == db.clapets && r.db.vaccins == db.vaccins && r.db.vaccinations == db.vaccinations
              && AddedDoe(db, r.db.femelles.rows, RowOf(f))
    ensures Consistent(db) ==> Consistent(r.db)
  {
    if IsBlank(f.numero) then Saved(db, f, Some(NumeroRequired), false, false)
    else if IsEdit(femelleId) then SaveEdit(f, db, femelleId.value)
    else SaveNew(f, db)
  }

  /** The edit branch of `handleSave`: `updateFemelle(femelleId, ...)`,
      which fails only on a stored doe given a status outside the CHECK and
      writes nothing for an id with no row. */
  function SaveEdit(f: Form, db: Db, id: int): (r: Saved)
    ensures r.loadingShown && r.form == f.(loading := false)
    ensures r.wentBack <==> r.notice.None?
    ensures r.notice.Some? ==> r.notice == Some(SaveFailed) && r.db == db
    ensures r.notice.Some? <==> id in db.femelles.rows && f.statut !in Statuts
    ensures r.wentBack ==>
              if id in db.femelles.rows
              then r.db == db.(femelles := db.femelles.(rows := db.femelles.rows[id := RowOf(f)]))
              else r.db == db
    ensures Consistent(db) ==> Consistent(r.db)
  {
    var step := UpdateFemelle(db, id, Some(f.numero), f.clapetId, FormatDateIso(Moment(f.dateNaissance)), f.statut);
    var done := f.(loading := false);
    if step.result.Ok? then Saved(step.db, done, None, true, true)
    else Saved(step.db, done, Some(SaveFailed), false, true)
  }

  /** The add branch of `handleSave`: `addFemelle(...)`, which fails only
      on a status outside the CHECK and otherwise inserts the row under a
      fresh id. */
  function SaveNew(f: Form, db: Db): (r: Saved)
    ensures r.loadingShown && r.form == f.(loading := false)
    ensures r.wentBack <==> r.notice.None?
    ensures r.notice.Some? ==> r.notice == Some(SaveFailed) && r.db == db
    ensures r.notice.Some? <==> f.statut !in Statuts
    ensures r.wentBack ==>
              && r.db.clapets == db.clapets && r.db.vaccins == db.vaccins && r.db.vaccinations == db.vaccinations
              && AddedDoe(db, r.db.femelles.rows, RowOf(f))
    ensures Consistent(db) ==> Consistent(r.db)
  {
    var step := AddFemelle(db, Some(f.numero), f.clapetId, FormatDateIso(Moment(f.dateNaissance)), Some(f.statut));
    var done := f.(loading := false);
    if step.result.Ok? then
      var id := step.result.value;
      assert (Consistent(db) ==> id !in db.femelles.rows)
             && step.db.femelles.rows == db.femelles.rows[id := RowOf(f)];
      Saved(step.db, done, None, true, true)
    else Saved(step.db, done, Some(SaveFailed), false, true)
  }

  /** `formatDateISO` of a picked date is its `YYYY-MM-DD` text. */
  lemma PickedDateText(d: CivilDate)
    ensures FormatDateIso(Moment(DateOn(d))) == Some(IsoText(d))
  {
  }

  /** A new doe saved from the untouched defaults with only a number typed
      in lands in no cage, living, born on the day the form was opened. */
  lemma NewDoeDefaults(db: Db, today: CivilDate, numero: string)
    requires !IsBlank(numero)
    ensures var r := HandleSave(Initial(today).(numero := numero), db, None);
            && r.wentBack
            && AddedDoe(db, r.db.femelles.rows, Femelle(numero, None, Some(IsoText(today)), Vivante))
  {
    var f := Initial(today).(numero := numero);
    DefaultRow(today, numero);
    assert HandleSave(f, db, None) == SaveNew(f, db);
  }

  /** The row written for the defaults with a number typed in. */
  lemma DefaultRow(today: CivilDate, numero: string)
    ensures RowOf(Initial(today).(numero := numero)) == Femelle(numero, None, Some(IsoText(today)), Vivante)
  {
    PickedDateText(today);
  }

  /** Opening a stored doe and saving her unchanged rewrites her row with
      its own values: the store is as before. Her birth date, stored as
      `YYYY-MM-DD` text, survives the trip through the date picker. */
  lemma EditRoundTrip(db: Db, id: int, today: CivilDate, born: CivilDate)
    requires Consistent(db) && id != 0 && id in db.femelles.rows
    requires !IsBlank(db.femelles.rows[id].numero)
    requires db.femelles.rows[id].dateNaissance == Some(IsoText(born)) && FourDigitYear(born)
    ensures var r := HandleSave(LoadFemelle(Initial(today), db, id), db, Some(id));
            r.wentBack && r.db == db
  {
    var row := db.femelles.rows[id];
    var f := LoadFemelle(Initial(today), db, id);
    LoadedRow(db, id, today, born);
    assert row.statut in Statuts;
    assert db.femelles.rows[id := row] == db.femelles.rows;
    assert HandleSave(f, db, Some(id)) == SaveEdit(f, db, id);
  }

  /** Loading a stored doe whose date is `YYYY-MM-DD` text gives back the
      very row a save would write. */
  lemma LoadedRow(db: Db, id: int, today: CivilDate, born: CivilDate)
    requires id in db.femelles.rows
    requires db.femelles.rows[id].dateNaissance == Some(IsoText(born)) && FourDigitYear(born)
    ensures RowOf(LoadFemelle(Initial(today), db, id)) == db.femelles.rows[id]
  {
    NewDateOfIso(born);
    var f := LoadFemelle(Initial(today), db, id);
    assert f.dateNaissance == DateOn(born);
    PickedDateText(born);
  }
}
