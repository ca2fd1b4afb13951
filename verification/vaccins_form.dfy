/** The add/edit dialog of screens/VaccinsScreen.js: opening it blank or
    prefilled from a vaccine, and `handleSave`, which validates the name and
    the duration and then either updates the vaccine being edited or adds a
    new one to the store. */
module VaccinsForm {
  import opened Base
  import opened Strings
  import opened Numbers
  import opened Store

  /** The dialog's state: whether it is shown, the id of the vaccine being
      edited (`None` when adding), and the two text inputs. */
  datatype Form = Form(visible: bool, editing: Option<int>, nom: string, dureeJours: string)

  const NameRequired: string := "Le nom du vaccin est obligatoire"
  const DurationInvalid: string := "La dur\U{00E9}e doit \U{00EA}tre un nombre positif"
  const SaveFailed: string := "Impossible de sauvegarder le vaccin"

  /** The dialog hidden and emptied, as after a successful save. */
  const Closed: Form := Form(false, None, "", "")

  /** `openAddModal()`: a blank dialog for a new vaccine. */
  function OpenAddModal(): (f: Form)
    ensures f.visible && f.editing.None? && f.nom == "" && f.dureeJours == ""
  {
    Form(true, None, "", "")
  }

  /** `openEditModal(vaccin)`: the dialog filled in with the vaccine's name
      and its duration as decimal text; the duration reads back as itself. */
  function OpenEditModal(id: int, v: Vaccin): (f: Form)
    ensures f.visible && f.editing == Some(id) && f.nom == v.nom
    ensures ParseInt(f.dureeJours, 0) == Int(v.dureeJours)
  {
    ParseIntOfText(v.dureeJours, "", 0);
    assert IntText(v.dureeJours) + "" == IntText(v.dureeJours);
    Form(true, Some(id), v.nom, IntText(v.dureeJours))
  }

  /** The result of pressing "save": the store after it, the dialog after
      it, the alert shown (if any) and whether the list is reloaded. */
  datatype Saved = Saved(db: Db, form: Form, notice: Option<string>, reload: bool)

  /** The duration the save guard accepts: `parseInt(dureeJours)` when it
      is a positive number. */
  predicate AcceptedDuration(n: Number) {
    n.Int? && n.value > 0
  }

  /** `handleSave()`: a blank or whitespace-only name is refused first, then
      a duration that parses to NaN or to at most 0; otherwise the untrimmed
      name and the parsed duration go to `updateVaccin` when editing and to
      `addVaccin` when adding, and on success the dialog is closed and
      emptied and the list reloaded. A refused save writes nothing and
      leaves the dialog as it was. */
  function HandleSave(form: Form, db: Db): (r: Saved)
    ensures r.notice == Some(NameRequired) <==> IsBlank(form.nom)
    ensures r.notice == Some(DurationInvalid) <==>
              !IsBlank(form.nom) && !AcceptedDuration(ParseInt(form.dureeJours, 0))
    ensures r.notice.Some? ==> r.db == db && r.form == form && !r.reload
    ensures r.notice.None? <==> !IsBlank(form.nom) && AcceptedDuration(ParseInt(form.dureeJours, 0))
    ensures r.notice.None? ==> r.form == Closed && r.reload
    ensures r.notice.None? && form.editing.None? ==>
              exists id ::
                && (Consistent(db) ==> id !in db.vaccins.rows)
                && r.db.vaccins.rows == db.vaccins.rows[id := Vaccin(form.nom, ParseInt(form.dureeJours, 0).value)]
    ensures r.notice.None? && form.editing.Some? ==>
              if form.editing.value in db.vaccins.rows
              then r.db.vaccins.rows == db.vaccins.rows[form.editing.value := Vaccin(form.nom, ParseInt(form.dureeJours, 0).value)]
              else r.db == db
    ensures r.db.clapets == db.clapets && r.db.femelles == db.femelles && r.db.vaccinations == db.vaccinations
    ensures Consistent(db) ==> Consistent(r.db)
  {
    if IsBlank(form.nom) then Saved(db, form, Some(NameRequired), false)
    else
      var duree := ParseInt(form.dureeJours, 0);
      if !AcceptedDuration(duree) then Saved(db, form, Some(DurationInvalid), false)
      else
        var written := WriteVaccin(db, form.editing, form.nom, duree.value);
        if written.result.Ok? then Saved(written.db, Closed, None, true)
        else Saved(written.db, form, Some(SaveFailed), false)
  }

  /** The add-versus-update branch of `handleSave`: `updateVaccin(id, nom,
      duree)` for the vaccine being edited, `addVaccin(nom, duree)`
      otherwise. With both values present neither write fails; an update of
      a vaccine that is gone changes nothing. */
  function WriteVaccin(db: Db, editing: Option<int>, nom: string, duree: int): (r: Step<int>)
    ensures r.result.Ok?
    ensures editing.None? ==>
              && (Consistent(db) ==> r.result.value !in db.vaccins.rows)
              && r.db.vaccins.rows == db.vaccins.rows[r.result.value := Vaccin(nom, duree)]
    ensures editing.Some? ==>
              if editing.value in db.vaccins.rows
              then r.db.vaccins.rows == db.vaccins.rows[editing.value := Vaccin(nom, duree)]
              else r.db == db
    ensures r.db.clapets == db.clapets && r.db.femelles == db.femelles && r.db.vaccinations == db.vaccinations
    ensures Consistent(db) ==> Consistent(r.db)
  {
    match editing
    case Some(id) =>
      var step := UpdateVaccin(db, id, Some(nom), Some(duree));
      assert id in db.vaccins.rows ==> step.db.vaccins.rows == db.vaccins.rows[id := Vaccin(nom, duree)];
      Step(step.db, Ok(0))
    case None => AddVaccin(db, Some(nom), Some(duree))
  }

  /** Reopening a stored vaccine and saving it unchanged rewrites the row
      with its own values: the store is as before. */
  lemma EditRoundTrip(db: Db, id: int)
    requires id in db.vaccins.rows
    requires !IsBlank(db.vaccins.rows[id].nom) && db.vaccins.rows[id].dureeJours > 0
    ensures var r := HandleSave(OpenEditModal(id, db.vaccins.rows[id]), db);
            r.notice.None? && r.db == db
  {
    var r := HandleSave(OpenEditModal(id, db.vaccins.rows[id]), db);
    assert r.db.vaccins.rows == db.vaccins.rows;
  }

  /** The duration is read as a number prefix: "30j" is 30 days. */
  lemma TrailingUnitAccepted(form: Form, db: Db)
    requires !IsBlank(form.nom) && form.dureeJours == "30j"
    ensures var r := HandleSave(form, db);
            r.notice.None? && ParseInt(form.dureeJours, 0) == Int(30)
  {
    ThirtyWithUnit();
  }

  /** `parseInt("30j")` stops at the letter and reads 30. */
  lemma ThirtyWithUnit()
    ensures ParseInt("30j", 0) == Int(30)
  {
    assert DecimalText(30) == "30" by {
      assert Width(30) == 2;
    }
    assert IntText(30) + "j" == "30j";
    ParseIntOfText(30, "j", 0);
  }

  /** A zero duration is refused. */
  lemma ZeroDurationRefused(form: Form, db: Db)
    requires form.dureeJours == "0" && !IsBlank(form.nom)
    ensures HandleSave(form, db).notice == Some(DurationInvalid)
  {
    ZeroReadsZero();
  }

  /** A name made only of whitespace is refused before the duration is
      looked at, whatever the duration. */
  lemma WhitespaceNameRefused(form: Form, db: Db)
    requires forall i :: 0 <= i < |form.nom| ==> IsWhitespace(form.nom[i])
    ensures HandleSave(form, db).notice == Some(NameRequired)
  {
    BlankIffAllWhitespace(form.nom);
  }
}
