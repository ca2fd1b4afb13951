/** The cage screen of screens/ClapletsScreen.js: the add dialog, whose
    `handleAdd` refuses a blank number and otherwise hands the typed text to
    `addClapet`, and the occupied/empty badge each listed cage is drawn
    with. */
module ClapetsForm {
  import opened Base
  import opened Strings
  import opened Store
  import opened Queries

  /** The add dialog: shown or not, and the number typed so far. */
  datatype Dialog = Dialog(visible: bool, newNumero: string)

  const NumeroRequired: string := "Le num\U{00E9}ro est obligatoire"
  const AddFailed: string := "Impossible d'ajouter le clapet (num\U{00E9}ro d\U{00E9}j\U{00E0} utilis\U{00E9}?)"

  /** The result of pressing "add": the store after it, the dialog after
      it, the alert shown (if any) and whether the list is reloaded. */
  datatype Added = Added(db: Db, dialog: Dialog, notice: Option<string>, reload: bool)

  /** `handleAdd()`: a blank or whitespace-only number is refused without
      calling `addClapet`; otherwise the number goes to `addClapet` as typed,
      untrimmed. A success hides and empties the dialog and reloads the
      list; a failure, a number already in use, keeps the dialog open with
      its text and alerts. */
  function HandleAdd(d: Dialog, db: Db): (r: Added)
    ensures r.notice == Some(NumeroRequired) <==> IsBlank(d.newNumero)
    ensures r.notice == Some(AddFailed) <==> !IsBlank(d.newNumero) && NumeroTaken(db, d.newNumero)
    ensures r.notice.Some? ==> r.db == db && r.dialog == d && !r.reload
    ensures r.notice.None? ==>
              && r.dialog == Dialog(false, "") && r.reload
              && (exists id :: && (Consistent(db) ==> id !in db.clapets.rows)
                              && r.db.clapets.rows == db.clapets.rows[id := Clapet(d.newNumero)])
              && r.db.femelles == db.femelles && r.db.vaccins == db.vaccins
              && r.db.vaccinations == db.vaccinations
    ensures Consistent(db) ==> Consistent(r.db)
  {
    if IsBlank(d.newNumero) then Added(db, d, Some(NumeroRequired), false)
    else
      var step := AddClapet(db, Some(d.newNumero));
      if step.result.Ok? then Added(step.db, Dialog(false, ""), None, true)
      else Added(step.db, d, Some(AddFailed), false)
  }

  /** Adding the same number twice: the first add succeeds, the second is
      refused and leaves the store and the retyped text as they were. */
  lemma AddTwiceRefused(db: Db, n: string)
    requires Consistent(db) && !IsBlank(n) && !NumeroTaken(db, n)
    ensures var first := HandleAdd(Dialog(true, n), db);
            var second := HandleAdd(Dialog(true, n), first.db);
            && first.notice.None?
            && second.notice == Some(AddFailed) && second.db == first.db
            && second.dialog == Dialog(true, n)
  {
    var first := HandleAdd(Dialog(true, n), db);
    var id :| first.db.clapets.rows == db.clapets.rows[id := Clapet(n)];
    assert first.db.clapets.rows[id].numero == n;
  }

  /** `isOccupied = !!item.femelle_numero`: a cage is drawn as occupied
      when the join gave it a doe whose number is not empty. */
  predicate IsOccupied(row: CageRow) {
    row.femelleNumero.Some? && row.femelleNumero.value != ""
  }

  /** The occupant line under a cage: the doe's number, shown only when the
      cage is occupied. */
  function Occupant(row: CageRow): (o: Option<string>)
    ensures o.Some? <==> IsOccupied(row)
    ensures o.Some? ==> o == row.femelleNumero
  {
    if IsOccupied(row) then row.femelleNumero else None
  }

  /** On a row of the cage list, the badge says occupied exactly when a
      living doe with a non-empty number is housed in the cage; a doe
      whose number is the empty string leaves her cage shown as empty. */
  lemma OccupiedMeansHoused(db: Db, r: JoinRow)
    requires r in CageJoin(db)
    ensures IsOccupied(CageRowOf(db, r)) <==>
              && r.femelleId.Some?
              && Houses(db, r.clapetId, r.femelleId.value)
              && db.femelles.rows[r.femelleId.value].numero != ""
  {
    CageJoinRows(db, r);
  }
}
