/** The read queries of database/db.js over the store: the cage list with
    its occupant, the dashboard statistics, and the two vaccination alert
    lists. A query's result set is described as a set of rows; `ORDER BY`
    arranges it with `Sorting.SortRows`. */
module Queries {
  import opened Base
  import opened Strings
  import opened Calendar
  import opened DateUtils
  import opened Store
  import opened Sorting

  // ---------------------------------------------------------------------
  // Cages LEFT JOIN living does
  // ---------------------------------------------------------------------

  predicate IsLiving(db: Db, f: int) {
    f in db.femelles.rows && db.femelles.rows[f].statut == Vivante
  }

  /** Doe `f` is alive and housed in cage `c`: the join condition
      `c.id = f.clapet_id AND f.statut = 'vivante'`. */
  predicate Houses(db: Db, c: int, f: int) {
    IsLiving(db, f) && db.femelles.rows[f].clapetId == Some(c)
  }

  /** A cage no living doe is housed in. */
  predicate IsEmptyCage(db: Db, c: int) {
    forall f :: f in db.femelles.rows ==> !Houses(db, c, f)
  }

  /** The cage a doe's row points to (0 when it points nowhere). */
  function CageOf(db: Db, f: int): int {
    if f in db.femelles.rows && db.femelles.rows[f].clapetId.Some? then db.femelles.rows[f].clapetId.value else 0
  }

  /** Living does housed in a cage that exists. */
  function HousedDoes(db: Db): set<int> {
    set f | f in db.femelles.rows && IsLiving(db, f) && CageOf(db, f) in db.clapets.rows
                && db.femelles.rows[f].clapetId.Some?
  }

  function EmptyCages(db: Db): set<int> {
    set c | c in db.clapets.rows && IsEmptyCage(db, c)
  }

  /** One row of `clapets c LEFT JOIN femelles f ON ...`: the cage and the
      matched doe, or `None` for the NULLs of an unmatched cage. */
  datatype JoinRow = JoinRow(clapetId: int, femelleId: Option<int>)

  function FilledRow(db: Db, f: int): JoinRow {
    JoinRow(CageOf(db, f), Some(f))
  }

  function EmptyRow(c: int): JoinRow {
    JoinRow(c, None)
  }

  /** The LEFT JOIN: every matching (cage, doe) pair, plus one NULL-padded
      row for each cage with no match. */
  function CageJoin(db: Db): set<JoinRow> {
    (set f | f in HousedDoes(db) :: FilledRow(db, f)) + (set c | c in EmptyCages(db) :: EmptyRow(c))
  }

  /** The rows of the join are exactly the housed pairs and the empty
      cages. */
  lemma CageJoinRows(db: Db, r: JoinRow)
    ensures r in CageJoin(db) <==>
              r.clapetId in db.clapets.rows &&
              match r.femelleId
              case Some(f) => Houses(db, r.clapetId, f)
              case None => IsEmptyCage(db, r.clapetId)
  {
    if r.femelleId.Some? && r.clapetId in db.clapets.rows && Houses(db, r.clapetId, r.femelleId.value) {
      assert r == FilledRow(db, r.femelleId.value);
    }
    if r.femelleId.None? && r.clapetId in db.clapets.rows && IsEmptyCage(db, r.clapetId) {
      assert r == EmptyRow(r.clapetId);
    }
  }

  // ---------------------------------------------------------------------
  // Cardinalities
  // ---------------------------------------------------------------------

  /** A map that is injective on `s` and sends `s` onto `t` makes the two
      sets equally large. */
  lemma {:induction false} ImageCard<A, B>(s: set<A>, t: set<B>, f: A -> B)
    requires forall x :: x in s ==> f(x) in t
    requires forall y :: y in t ==> exists x :: x in s && f(x) == y
    requires forall x, y :: x in s && y in s && f(x) == f(y) ==> x == y
    ensures |s| == |t|
    decreases |s|
  {
    if s == {} {
      assert forall y :: y !in t;
      assert t == {};
    } else {
      var x :| x in s;
      var s' := s - {x};
      var t' := t - {f(x)};
      forall y | y in t'
        ensures exists x' :: x' in s' && f(x') == y
      {
        var x' :| x' in s && f(x') == y;
      }
      ImageCard(s', t', f);
    }
  }

  lemma FilledRowsCard(db: Db)
    ensures |set f | f in HousedDoes(db) :: FilledRow(db, f)| == |HousedDoes(db)|
  {
    var t := set f | f in HousedDoes(db) :: FilledRow(db, f);
    ImageCard(HousedDoes(db), t, f => FilledRow(db, f));
  }

  lemma EmptyRowsCard(db: Db)
    ensures |set c | c in EmptyCages(db) :: EmptyRow(c)| == |EmptyCages(db)|
  {
    var t := set c | c in EmptyCages(db) :: EmptyRow(c);
    ImageCard(EmptyCages(db), t, EmptyRow);
  }

  /** The join's rows with a doe are the filled ones, those without are
      the empty cages' rows. */
  lemma SplitJoin(db: Db)
    ensures (set r | r in CageJoin(db) && r.femelleId.Some?) == (set f | f in HousedDoes(db) :: FilledRow(db, f))
    ensures (set r | r in CageJoin(db) && r.femelleId.None?) == (set c | c in EmptyCages(db) :: EmptyRow(c))
  {
  }

  // ---------------------------------------------------------------------
  // getStatistics
  // ---------------------------------------------------------------------

  datatype Stats = Stats(totalFemelles: int, clapetsRemplis: int, clapetsVides: int)

  /** `getStatistics()`. The second query counts the join's rows (`total`)
      and sums 1 for each row with a doe (`remplis`); SQL's SUM over no row
      is NULL, which `|| 0` turns into 0. */
  function GetStatistics(db: Db): (r: Stats)
    ensures r.totalFemelles == |set f | f in db.femelles.rows && IsLiving(db, f)|
    ensures r.clapetsRemplis == |HousedDoes(db)|
    ensures r.clapetsVides == |EmptyCages(db)|
    ensures r.clapetsRemplis + r.clapetsVides == |CageJoin(db)|
  {
    var rows := CageJoin(db);
    var total := |rows|;
    var sum: Option<int> := if total == 0 then None else Some(|set r | r in rows && r.femelleId.Some?|);
    var remplis := sum.GetOr(0);
    SplitJoin(db);
    FilledRowsCard(db);
    EmptyRowsCard(db);
    assert rows == (set r | r in rows && r.femelleId.Some?) + (set r | r in rows && r.femelleId.None?);
    Stats(|set f | f in db.femelles.rows && IsLiving(db, f)|, remplis, total - remplis)
  }

  /** No cage holds two living does. */
  ghost predicate OneDoePerCage(db: Db) {
    forall f, g ::
      (IsLiving(db, f) && IsLiving(db, g) && db.femelles.rows[f].clapetId.Some?
       && db.femelles.rows[f].clapetId == db.femelles.rows[g].clapetId) ==> f == g
  }

  /** When no cage holds two living does, the housed does and the
      occupied cages are equally many. */
  lemma HousedCagesCard(db: Db)
    requires OneDoePerCage(db)
    ensures |HousedDoes(db)| == |db.clapets.rows.Keys - EmptyCages(db)|
  {
    var full := db.clapets.rows.Keys - EmptyCages(db);
    forall c | c in full
      ensures exists f :: f in HousedDoes(db) && CageOf(db, f) == c
    {
      var f :| f in db.femelles.rows && Houses(db, c, f);
      assert f in HousedDoes(db) && CageOf(db, f) == c;
    }
    forall f | f in HousedDoes(db)
      ensures CageOf(db, f) in full
    {
      assert Houses(db, CageOf(db, f), f);
    }
    ImageCard(HousedDoes(db), full, f => CageOf(db, f));
  }

  /** When no cage holds two living does, the filled and empty counts add
      up to the number of cages. */
  lemma StatisticsCoverCages(db: Db)
    requires OneDoePerCage(db)
    ensures GetStatistics(db).clapetsRemplis + GetStatistics(db).clapetsVides == |db.clapets.rows|
  {
    HousedCagesCard(db);
    var full := db.clapets.rows.Keys - EmptyCages(db);
    assert db.clapets.rows.Keys == full + EmptyCages(db);
    assert |db.clapets.rows.Keys| == |full| + |EmptyCages(db)|;
  }

  // ---------------------------------------------------------------------
  // getAllClapets
  // ---------------------------------------------------------------------

  /** A row of the cage list: the cage's columns and the number of the
      living doe in it (`femelle_numero`), NULL for an empty cage. The
      matched doe's id is kept so that two does of one cage give two
      rows. */
  datatype CageRow = CageRow(id: int, numero: string, femelleId: Option<int>, femelleNumero: Option<string>)

  function CageRowOf(db: Db, r: JoinRow): CageRow
    requires r in CageJoin(db)
  {
    CageJoinRows(db, r);
    var numero := db.clapets.rows[r.clapetId].numero;
    match r.femelleId
    case None => CageRow(r.clapetId, numero, None, None)
    case Some(f) => CageRow(r.clapetId, numero, Some(f), Some(db.femelles.rows[f].numero))
  }

  function CageNumero(r: CageRow): string {
    r.numero
  }

  /** `getAllClapets()`: one row per row of the join, in ascending order of
      the cage number. */
  method GetAllClapets(db: Db) returns (rows: seq<CageRow>)
    ensures SortedBy(rows, CageNumero)
    ensures forall r :: r in rows <==>
              && r.id in db.clapets.rows && r.numero == db.clapets.rows[r.id].numero
              && match r.femelleId
                 case None => r.femelleNumero.None? && IsEmptyCage(db, r.id)
                 case Some(f) => Houses(db, r.id, f) && r.femelleNumero == Some(db.femelles.rows[f].numero)
    ensures forall i, j :: 0 <= i < j < |rows| ==> rows[i] != rows[j]
  {
    var result := set j | j in CageJoin(db) :: CageRowOf(db, j);
    rows := SortRows(result, CageNumero);
    forall r
      ensures r in result <==>
              && r.id in db.clapets.rows && r.numero == db.clapets.rows[r.id].numero
              && match r.femelleId
                 case None => r.femelleNumero.None? && IsEmptyCage(db, r.id)
                 case Some(f) => Houses(db, r.id, f) && r.femelleNumero == Some(db.femelles.rows[f].numero)
    {
      var j := JoinRow(r.id, r.femelleId);
      CageJoinRows(db, j);
      if r in result {
        var j' :| j' in CageJoin(db) && CageRowOf(db, j') == r;
        CageJoinRows(db, j');
      } else if j in CageJoin(db) {
        assert CageRowOf(db, j) != r;
      }
    }
  }

  // ---------------------------------------------------------------------
  // Vaccination alerts
  // ---------------------------------------------------------------------

  /** A row of an alert list: the vaccination (`vf.*`), the doe's number
      and the vaccine's name. */
  datatype Alert = Alert(id: int, vaccination: Vaccination, femelleNumero: string, vaccinNom: string)

  /** The vaccination joins a living doe and an existing vaccine: the two
      inner joins and `f.statut = 'vivante'`. */
  predicate Alertable(db: Db, k: int) {
    && k in db.vaccinations.rows
    && IsLiving(db, db.vaccinations.rows[k].femelleId)
    && db.vaccinations.rows[k].vaccinId in db.vaccins.rows
  }

  function AlertOf(db: Db, k: int): Alert
    requires Alertable(db, k)
  {
    var v := db.vaccinations.rows[k];
    Alert(k, v, db.femelles.rows[v.femelleId].numero, db.vaccins.rows[v.vaccinId].nom)
  }

  function DueKey(a: Alert): string {
    a.vaccination.dateProchain
  }

  /** The alert rows whose due date passes the `WHERE` test `keep`. */
  function AlertRows(db: Db, keep: string -> bool): set<Alert> {
    set k | k in db.vaccinations.rows && Alertable(db, k) && keep(db.vaccinations.rows[k].dateProchain) :: AlertOf(db, k)
  }

  /** An alert row is in the result exactly when it stands for a joined
      vaccination whose due date passes the test. */
  lemma AlertRowsMember(db: Db, keep: string -> bool, a: Alert)
    ensures a in AlertRows(db, keep) <==>
              Alertable(db, a.id) && a == AlertOf(db, a.id) && keep(a.vaccination.dateProchain)
  {
    if Alertable(db, a.id) && a == AlertOf(db, a.id) && keep(a.vaccination.dateProchain) {
      assert a.id in db.vaccinations.rows;
    }
  }

  /** `WHERE vf.date_prochain < today` */
  function OverdueRows(db: Db, today: string): set<Alert> {
    AlertRows(db, dp => StrLess(dp, today))
  }

  /** `WHERE vf.date_prochain >= from AND vf.date_prochain <= to` */
  function SoonRows(db: Db, from: string, to: string): set<Alert> {
    AlertRows(db, dp => StrLessEq(from, dp) && StrLessEq(dp, to))
  }

  /** `getVaccinsEnRetard()`: the vaccinations of living does due strictly
      before today (`formatDateISO(new Date())`), earliest first, each
      once. */
  method GetVaccinsEnRetard(db: Db, today: CivilDate) returns (rows: seq<Alert>)
    ensures SortedBy(rows, DueKey)
    ensures forall a :: a in rows <==>
              Alertable(db, a.id) && a == AlertOf(db, a.id)
              && StrLess(a.vaccination.dateProchain, IsoText(today))
    ensures forall i, j :: 0 <= i < j < |rows| ==> rows[i].id != rows[j].id
  {
    var todayText := IsoText(today);
    rows := SortRows(OverdueRows(db, todayText), DueKey);
    forall a
      ensures a in rows <==>
              Alertable(db, a.id) && a == AlertOf(db, a.id) && StrLess(a.vaccination.dateProchain, todayText)
    {
      AlertRowsMember(db, dp => StrLess(dp, todayText), a);
    }
    DistinctIds(db, rows);
  }

  /** `getVaccinsBientot()`: the vaccinations of living does due from today
      to `addDays(today, 7)` inclusive, earliest first, each once. */
  method GetVaccinsBientot(db: Db, today: CivilDate) returns (rows: seq<Alert>)
    ensures SortedBy(rows, DueKey)
    ensures forall a :: a in rows <==>
              Alertable(db, a.id) && a == AlertOf(db, a.id)
              && StrLessEq(IsoText(today), a.vaccination.dateProchain)
              && StrLessEq(a.vaccination.dateProchain, IsoText(AddDays(today, AlertThresholdDays)))
    ensures forall i, j :: 0 <= i < j < |rows| ==> rows[i].id != rows[j].id
  {
    var from := IsoText(today);
    var to := IsoText(AddDays(today, 7));
    rows := SortRows(SoonRows(db, from, to), DueKey);
    forall a
      ensures a in rows <==>
              Alertable(db, a.id) && a == AlertOf(db, a.id)
              && StrLessEq(from, a.vaccination.dateProchain) && StrLessEq(a.vaccination.dateProchain, to)
    {
      AlertRowsMember(db, dp => StrLessEq(from, dp) && StrLessEq(dp, to), a);
    }
    DistinctIds(db, rows);
  }

  /** Rows of an alert list that are distinct alerts carry distinct ids. */
  lemma DistinctIds(db: Db, rows: seq<Alert>)
    requires forall i, j :: 0 <= i < j < |rows| ==> rows[i] != rows[j]
    requires forall a :: a in rows ==> Alertable(db, a.id) && a == AlertOf(db, a.id)
    ensures forall i, j :: 0 <= i < j < |rows| ==> rows[i].id != rows[j].id
  {
    forall i, j | 0 <= i < j < |rows|
      ensures rows[i].id != rows[j].id
    {
      assert rows[i] in rows && rows[j] in rows;
    }
  }

  /** No vaccination is both overdue and due soon. */
  lemma AlertsDisjoint(db: Db, today: CivilDate)
    ensures OverdueRows(db, IsoText(today)) * SoonRows(db, IsoText(today), IsoText(AddDays(today, 7))) == {}
  {
    var t := IsoText(today);
    var u := IsoText(AddDays(today, 7));
    forall a
      ensures !(a in OverdueRows(db, t) && a in SoonRows(db, t, u))
    {
      AlertRowsMember(db, dp => StrLess(dp, t), a);
      AlertRowsMember(db, dp => StrLessEq(t, dp) && StrLessEq(dp, u), a);
      var dp := a.vaccination.dateProchain;
      if StrLess(dp, t) {
        StrLessAsymmetric(dp, t);
        StrLessIrreflexive(t);
      }
    }
  }

  /** For a due date stored in ISO form, the overdue list holds the
      vaccination exactly when `getVaccinationStatus` calls it overdue. */
  lemma OverdueMatchesStatus(db: Db, today: CivilDate, k: int, due: CivilDate)
    requires Alertable(db, k)
    requires db.vaccinations.rows[k].dateProchain == IsoText(due)
    requires FourDigitYear(due) && FourDigitYear(today)
    ensures AlertOf(db, k) in OverdueRows(db, IsoText(today))
        <==> VaccinationStatusCorrected(Text(IsoText(due)), today) == "overdue"
  {
    NewDateOfIso(due);
    IsoOrder(due, today);
  }

  /** For a due date stored in ISO form, the soon list holds the
      vaccination exactly when `getVaccinationStatus` calls it soon. */
  lemma SoonMatchesStatus(db: Db, today: CivilDate, k: int, due: CivilDate)
    requires Alertable(db, k)
    requires db.vaccinations.rows[k].dateProchain == IsoText(due)
    requires FourDigitYear(due) && FourDigitYear(today) && FourDigitYear(AddDays(today, 7))
    ensures AlertOf(db, k) in SoonRows(db, IsoText(today), IsoText(AddDays(today, 7)))
        <==> VaccinationStatusCorrected(Text(IsoText(due)), today) == "soon"
  {
    NewDateOfIso(due);
    IsoOrderEq(today, due);
    IsoOrderEq(due, AddDays(today, 7));
  }
}
