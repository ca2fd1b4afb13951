/** The SQLite store of database/db.js as immutable data: one table per
    entity, each a map from row id to row plus the AUTOINCREMENT counter,
    and one function per exported write, taking the store to a new store
    and the value the promise resolves with or the error it rejects with.

    The declared constraints are applied: NOT NULL, UNIQUE on the cage
    number, the CHECK on a doe's status, and the declared `ON DELETE
    CASCADE` / `ON DELETE SET NULL` actions. The source never turns on
    `PRAGMA foreign_keys`, so on a device those actions do not fire; the
    model applies the declared schema. Foreign-key checks on insert are
    not modelled. */
module Store {
  import opened Base
  import opened Strings
  import opened Calendar
  import opened DateUtils

  // ---------------------------------------------------------------------
  // Rows and tables
  // ---------------------------------------------------------------------

  /** The `statut` values the CHECK constraint admits (`STATUTS_FEMELLE`). */
  const Vivante: string := "vivante"
  const Vendue: string := "vendue"
  const Morte: string := "morte"
  const Statuts: set<string> := {Vivante, Vendue, Morte}

  /** A cage (`clapets`). */
  datatype Clapet = Clapet(numero: string)

  /** A doe (`femelles`); `clapetId` and `dateNaissance` are nullable. */
  datatype Femelle = Femelle(numero: string, clapetId: Option<int>, dateNaissance: Option<string>, statut: string)

  /** A vaccine (`vaccins`) and its booster interval in days. */
  datatype Vaccin = Vaccin(nom: string, dureeJours: int)

  /** One vaccination of one doe (`vaccinations_femelles`). */
  datatype Vaccination = Vaccination(femelleId: int, vaccinId: int, dateVaccination: string, dateProchain: string)

  /** A table: its rows by id and the largest id ever handed out
      (`sqlite_sequence`), so that AUTOINCREMENT never reuses an id. */
  datatype Table<R> = Table(rows: map<int, R>, lastId: nat)

  /** Every row id was handed out by the counter. */
  predicate IdsIssued<R>(t: Table<R>) {
    forall k :: k in t.rows ==> 1 <= k <= t.lastId
  }

  /** `INSERT` of one row: it gets the next id, one above every id ever
      used. */
  function InsertRow<R>(t: Table<R>, row: R): (r: (Table<R>, int))
    ensures IdsIssued(t) ==> r.1 !in t.rows && IdsIssued(r.0)
    ensures r.0.rows == t.rows[r.1 := row]
    ensures r.1 > 0 && r.0.lastId == r.1
  {
    var id := t.lastId + 1;
    (Table(t.rows[id := row], id), id)
  }

  datatype Db = Db(
    clapets: Table<Clapet>,
    femelles: Table<Femelle>,
    vaccins: Table<Vaccin>,
    vaccinations: Table<Vaccination>)

  /** The empty store `initDatabase` creates. */
  const EmptyDb: Db := Db(Table(map[], 0), Table(map[], 0), Table(map[], 0), Table(map[], 0))

  /** No two cages share a number (`numero TEXT UNIQUE`). */
  predicate UniqueNumeros(clapets: map<int, Clapet>) {
    forall i, j :: i in clapets && j in clapets && i != j ==> clapets[i].numero != clapets[j].numero
  }

  /** What the schema guarantees of every stored state. */
  predicate Consistent(db: Db) {
    && UniqueNumeros(db.clapets.rows)
    && (forall k :: k in db.femelles.rows ==> db.femelles.rows[k].statut in Statuts)
    && IdsIssued(db.clapets) && IdsIssued(db.femelles)
    && IdsIssued(db.vaccins) && IdsIssued(db.vaccinations)
  }

  /** Why a write was rejected. */
  datatype DbError =
    | NotNullViolation(column: string)
    | UniqueViolation(column: string)
    | CheckViolation(column: string)
    | NotFound(message: string)

  /** `'Vaccin non trouvé'` */
  const VaccinNotFound: string := "Vaccin non trouv\U{00E9}"

  /** The store after an operation and what its promise settled with. */
  datatype Step<T> = Step(db: Db, result: Result<T, DbError>)

  /** A rejected statement writes nothing. */
  function Reject<T>(db: Db, e: DbError): (r: Step<T>)
    ensures r.db == db && r.result == Err(e)
  {
    Step(db, Err(e))
  }

  // ---------------------------------------------------------------------
  // Cages
  // ---------------------------------------------------------------------

  /** Whether a cage already carries number `n`. */
  predicate NumeroTaken(db: Db, n: string) {
    exists k :: k in db.clapets.rows && db.clapets.rows[k].numero == n
  }

  /** `addClapet(numero)`: inserts a cage and resolves with its id; a
      `null` number or one already in use is rejected and nothing is
      written. */
  function AddClapet(db: Db, numero: Option<string>): (r: Step<int>)
    ensures r.result.Err? <==> numero.None? || NumeroTaken(db, numero.value)
    ensures numero.None? ==> r.result == Err(NotNullViolation("numero"))
    ensures numero.Some? && NumeroTaken(db, numero.value) ==> r.result == Err(UniqueViolation("numero"))
    ensures r.result.Err? ==> r.db == db
    ensures r.result.Ok? ==>
              && (Consistent(db) ==> r.result.value !in db.clapets.rows)
              && r.db.clapets.rows == db.clapets.rows[r.result.value := Clapet(numero.value)]
              && r.db.femelles == db.femelles && r.db.vaccins == db.vaccins
              && r.db.vaccinations == db.vaccinations
    ensures Consistent(db) ==> Consistent(r.db)
  {
    match numero
    case None => Reject(db, NotNullViolation("numero"))
    case Some(n) =>
      if NumeroTaken(db, n) then Reject(db, UniqueViolation("numero"))
      else
        var (t, id) := InsertRow(db.clapets, Clapet(n));
        Step(db.(clapets := t), Ok(id))
  }

  /** The doe as `ON DELETE SET NULL` leaves her when cage `id` goes. */
  function Unhouse(f: Femelle, id: int): Femelle {
    if f.clapetId == Some(id) then f.(clapetId := None) else f
  }

  /** `deleteClapet(id)`: removes the cage; every doe housed in it stays,
      with no cage and every other field as it was. Deleting an id that
      does not exist changes nothing. */
  function DeleteClapet(db: Db, id: int): (r: Step<()>)
    ensures r.result.Ok?
    ensures r.db.clapets.rows == db.clapets.rows - {id}
    ensures r.db.clapets.lastId == db.clapets.lastId
    ensures r.db.femelles.rows.Keys == db.femelles.rows.Keys
    ensures forall k :: k in r.db.femelles.rows ==>
              var (before, after) := (db.femelles.rows[k], r.db.femelles.rows[k]);
              && after.clapetId == (if before.clapetId == Some(id) then None else before.clapetId)
              && after.(clapetId := None) == before.(clapetId := None)
    ensures r.db.vaccins == db.vaccins && r.db.vaccinations == db.vaccinations
    ensures Consistent(db) ==> Consistent(r.db)
  {
    var femelles := map k | k in db.femelles.rows :: Unhouse(db.femelles.rows[k], id);
    Step(db.(clapets := db.clapets.(rows := db.clapets.rows - {id}),
             femelles := db.femelles.(rows := femelles)),
         Ok(()))
  }

  // ---------------------------------------------------------------------
  // Does
  // ---------------------------------------------------------------------

  /** `getFemelleById(id)`: the row, or `undefined` when there is none. */
  function GetFemelleById(db: Db, id: int): (r: Option<Femelle>)
    ensures r.Some? <==> id in db.femelles.rows
    ensures r.Some? ==> r.value == db.femelles.rows[id]
  {
    if id in db.femelles.rows then Some(db.femelles.rows[id]) else None
  }

  /** The row a doe write stores, or the constraint it breaks: NOT NULL on
      `numero`, then the CHECK on `statut`. */
  function FemelleRow(numero: Option<string>, clapetId: Option<int>, dateNaissance: Option<string>, statut: string): (r: Result<Femelle, DbError>)
    ensures r.Err? <==> numero.None? || statut !in Statuts
    ensures r.Ok? ==> r.value == Femelle(numero.value, clapetId, dateNaissance, statut)
  {
    if numero.None? then Err(NotNullViolation("numero"))
    else if statut !in Statuts then Err(CheckViolation("statut"))
    else Ok(Femelle(numero.value, clapetId, dateNaissance, statut))
  }

  /** `addFemelle(numero, clapatId, dateNaissance, statut = 'vivante')`:
      `statut` is `None` when the argument is left out. The cage id is
      stored as given. */
  function AddFemelle(db: Db, numero: Option<string>, clapetId: Option<int>, dateNaissance: Option<string>, statut: Option<string>): (r: Step<int>)
    ensures var s := statut.GetOr(Vivante);
            && (r.result.Err? <==> numero.None? || s !in Statuts)
            && (r.result.Err? ==> r.db == db)
            && (r.result.Ok? ==>
                  && (Consistent(db) ==> r.result.value !in db.femelles.rows)
                  && r.db.femelles.rows == db.femelles.rows[r.result.value := Femelle(numero.value, clapetId, dateNaissance, s)]
                  && r.db.clapets == db.clapets && r.db.vaccins == db.vaccins
                  && r.db.vaccinations == db.vaccinations)
    ensures statut.None? && numero.Some? ==> r.result.Ok? && r.db.femelles.rows[r.result.value].statut == Vivante
    ensures Consistent(db) ==> Consistent(r.db)
  {
    match FemelleRow(numero, clapetId, dateNaissance, statut.GetOr(Vivante))
    case Err(e) => Reject(db, e)
    case Ok(row) =>
      var (t, id) := InsertRow(db.femelles, row);
      Step(db.(femelles := t), Ok(id))
  }

  /** `updateFemelle(id, numero, clapatId, dateNaissance, statut)`: rewrites
      the doe's four fields. An id with no row matches nothing and
      succeeds without writing; the constraints are checked only on a row
      that is rewritten. */
  function UpdateFemelle(db: Db, id: int, numero: Option<string>, clapetId: Option<int>, dateNaissance: Option<string>, statut: string): (r: Step<()>)
    ensures r.result.Err? <==> id in db.femelles.rows && (numero.None? || statut !in Statuts)
    ensures r.result.Err? || id !in db.femelles.rows ==> r.db == db
    ensures r.result.Ok? && id in db.femelles.rows ==>
              r.db == db.(femelles := db.femelles.(rows := db.femelles.rows[id := Femelle(numero.value, clapetId, dateNaissance, statut)]))
    ensures Consistent(db) ==> Consistent(r.db)
  {
    if id !in db.femelles.rows then Step(db, Ok(()))
    else match FemelleRow(numero, clapetId, dateNaissance, statut)
      case Err(e) => Reject(db, e)
      case Ok(row) => Step(db.(femelles := db.femelles.(rows := db.femelles.rows[id := row])), Ok(()))
  }

  /** `deleteFemelle(id)`: removes the doe and, by `ON DELETE CASCADE`,
      every vaccination of hers; every other row stays. */
  function DeleteFemelle(db: Db, id: int): (r: Step<()>)
    ensures r.result.Ok?
    ensures r.db.femelles.rows == db.femelles.rows - {id}
    ensures forall k :: k in r.db.vaccinations.rows <==>
              k in db.vaccinations.rows && db.vaccinations.rows[k].femelleId != id
    ensures forall k :: k in r.db.vaccinations.rows ==> r.db.vaccinations.rows[k] == db.vaccinations.rows[k]
    ensures r.db.clapets == db.clapets && r.db.vaccins == db.vaccins
    ensures r.db.femelles.lastId == db.femelles.lastId
    ensures r.db.vaccinations.lastId == db.vaccinations.lastId
    ensures Consistent(db) ==> Consistent(r.db)
  {
    var kept := map k | k in db.vaccinations.rows && db.vaccinations.rows[k].femelleId != id :: db.vaccinations.rows[k];
    Step(db.(femelles := db.femelles.(rows := db.femelles.rows - {id}),
             vaccinations := db.vaccinations.(rows := kept)),
         Ok(()))
  }

  // ---------------------------------------------------------------------
  // Vaccines
  // ---------------------------------------------------------------------

  /** The row a vaccine write stores, or the NOT NULL constraint it
      breaks. */
  function VaccinRow(nom: Option<string>, dureeJours: Option<int>): (r: Result<Vaccin, DbError>)
    ensures r.Err? <==> nom.None? || dureeJours.None?
    ensures r.Ok? ==> r.value == Vaccin(nom.value, dureeJours.value)
  {
    if nom.None? then Err(NotNullViolation("nom"))
    else if dureeJours.None? then Err(NotNullViolation("duree_jours"))
    else Ok(Vaccin(nom.value, dureeJours.value))
  }

  /** `addVaccin(nom, dureeJours)` */
  function AddVaccin(db: Db, nom: Option<string>, dureeJours: Option<int>): (r: Step<int>)
    ensures r.result.Err? <==> nom.None? || dureeJours.None?
    ensures r.result.Err? ==> r.db == db
    ensures r.result.Ok? ==>
              && (Consistent(db) ==> r.result.value !in db.vaccins.rows)
              && r.db.vaccins.rows == db.vaccins.rows[r.result.value := Vaccin(nom.value, dureeJours.value)]
              && r.db.clapets == db.clapets && r.db.femelles == db.femelles
              && r.db.vaccinations == db.vaccinations
    ensures Consistent(db) ==> Consistent(r.db)
  {
    match VaccinRow(nom, dureeJours)
    case Err(e) => Reject(db, e)
    case Ok(row) =>
      var (t, id) := InsertRow(db.vaccins, row);
      Step(db.(vaccins := t), Ok(id))
  }

  /** `updateVaccin(id, nom, dureeJours)`: rewrites the vaccine row only.
      Vaccinations already recorded keep the `date_prochain` computed with
      the old interval. */
  function UpdateVaccin(db: Db, id: int, nom: Option<string>, dureeJours: Option<int>): (r: Step<()>)
    ensures r.result.Err? <==> id in db.vaccins.rows && (nom.None? || dureeJours.None?)
    ensures r.db.clapets == db.clapets && r.db.femelles == db.femelles
    ensures r.db.vaccinations == db.vaccinations
    ensures r.db.vaccins.rows.Keys == db.vaccins.rows.Keys
    ensures forall k :: k in db.vaccins.rows && k != id ==> r.db.vaccins.rows[k] == db.vaccins.rows[k]
    ensures r.result.Ok? && id in db.vaccins.rows ==>
              r.db.vaccins.rows[id] == Vaccin(nom.value, dureeJours.value)
    ensures r.result.Err? ==> r.db == db
    ensures Consistent(db) ==> Consistent(r.db)
  {
    if id !in db.vaccins.rows then Step(db, Ok(()))
    else match VaccinRow(nom, dureeJours)
      case Err(e) => Reject(db, e)
      case Ok(row) => Step(db.(vaccins := db.vaccins.(rows := db.vaccins.rows[id := row])), Ok(()))
  }

  /** `deleteVaccin(id)`: removes the vaccine and, by `ON DELETE CASCADE`,
      every vaccination with it; every other row stays. */
  function DeleteVaccin(db: Db, id: int): (r: Step<()>)
    ensures r.result.Ok?
    ensures r.db.vaccins.rows == db.vaccins.rows - {id}
    ensures forall k :: k in r.db.vaccinations.rows <==>
              k in db.vaccinations.rows && db.vaccinations.rows[k].vaccinId != id
    ensures forall k :: k in r.db.vaccinations.rows ==> r.db.vaccinations.rows[k] == db.vaccinations.rows[k]
    ensures r.db.clapets == db.clapets && r.db.femelles == db.femelles
    ensures r.db.vaccins.lastId == db.vaccins.lastId
    ensures r.db.vaccinations.lastId == db.vaccinations.lastId
    ensures Consistent(db) ==> Consistent(r.db)
  {
    var kept := map k | k in db.vaccinations.rows && db.vaccinations.rows[k].vaccinId != id :: db.vaccinations.rows[k];
    Step(db.(vaccins := db.vaccins.(rows := db.vaccins.rows - {id}),
             vaccinations := db.vaccinations.(rows := kept)),
         Ok(()))
  }

  // ---------------------------------------------------------------------
  // Vaccinations
  // ---------------------------------------------------------------------

  /** The `date_prochain` bound into the insert:
      `formatDateISO(addDays(dateVaccination, dureeJours))`, `null` when
      the vaccination date does not parse. */
  function NextDueDate(dateVaccination: string, dureeJours: int): Option<string> {
    FormatDateIso(Moment(ShiftDays(Text(dateVaccination), dureeJours)))
  }

  /** `addVaccination(femelleId, vaccinId, dateVaccination)`: looks up the
      vaccine's interval, then inserts the vaccination with its next due
      date. An unknown vaccine rejects with "Vaccin non trouvé"; a date that
      does not parse gives a `null` due date, which NOT NULL rejects; either
      way nothing is written. The doe id is not checked. */
  function AddVaccination(db: Db, femelleId: int, vaccinId: int, dateVaccination: string): (r: Step<int>)
    ensures vaccinId !in db.vaccins.rows ==> r == Step(db, Err(NotFound(VaccinNotFound)))
    ensures vaccinId in db.vaccins.rows && NewDate(Text(dateVaccination)).InvalidDate? ==>
              r == Step(db, Err(NotNullViolation("date_prochain")))
    ensures r.result.Ok? <==> vaccinId in db.vaccins.rows && NewDate(Text(dateVaccination)).DateOn?
    ensures r.result.Ok? ==>
              var given := NewDate(Text(dateVaccination)).date;
              var due := AddDays(given, db.vaccins.rows[vaccinId].dureeJours);
              && (Consistent(db) ==> r.result.value !in db.vaccinations.rows)
              && r.db.vaccinations.rows == db.vaccinations.rows[r.result.value :=
                   Vaccination(femelleId, vaccinId, dateVaccination, IsoText(due))]
              && DayNumber(due) == DayNumber(given) + db.vaccins.rows[vaccinId].dureeJours
              && r.db.clapets == db.clapets && r.db.femelles == db.femelles
              && r.db.vaccins == db.vaccins
    ensures Consistent(db) ==> Consistent(r.db)
  {
    if vaccinId !in db.vaccins.rows then Reject(db, NotFound(VaccinNotFound))
    else
      var dureeJours := db.vaccins.rows[vaccinId].dureeJours;
      match NextDueDate(dateVaccination, dureeJours)
      case None => Reject(db, NotNullViolation("date_prochain"))
      case Some(dateProchain) =>
        var (t, id) := InsertRow(db.vaccinations, Vaccination(femelleId, vaccinId, dateVaccination, dateProchain));
        Step(db.(vaccinations := t), Ok(id))
  }

  /** A vaccination recorded on a well-formed date is due exactly the
      vaccine's interval later: its `date_prochain` reads back as that day,
      and `daysUntil` of it, counted from the vaccination day, is the
      interval. */
  lemma AddVaccinationDueDate(db: Db, femelleId: int, vaccinId: int, given: CivilDate)
    requires vaccinId in db.vaccins.rows
    requires FourDigitYear(given)
    requires FourDigitYear(AddDays(given, db.vaccins.rows[vaccinId].dureeJours))
    ensures var r := AddVaccination(db, femelleId, vaccinId, IsoText(given));
            var n := db.vaccins.rows[vaccinId].dureeJours;
            && r.result.Ok?
            && var row := r.db.vaccinations.rows[r.result.value];
               && row.dateVaccination == IsoText(given)
               && ParseIso(row.dateProchain) == Some(AddDays(given, n))
               && DaysUntil(Text(row.dateProchain), given) == Some(Numbers.Int(n))
  {
    var n := db.vaccins.rows[vaccinId].dureeJours;
    NewDateOfIso(given);
    IsoRoundTrip(AddDays(given, n));
    DaysUntilShift(given, n);
  }

  /** A vaccine with a 365-day interval given on 2024-01-10 is next due on
      2025-01-09 (2024 is a leap year). */
  lemma YearlyBoosterExample()
    ensures AddDays(Date(2024, 1, 10), 365) == Date(2025, 1, 9)
  {
    YearLength(2024);
    assert IsLeapYear(2024);
    assert DayNumber(Date(2025, 1, 9)) == DayNumber(Date(2024, 1, 10)) + 365;
    DayNumberInjective(AddDays(Date(2024, 1, 10), 365), Date(2025, 1, 9));
  }
}
