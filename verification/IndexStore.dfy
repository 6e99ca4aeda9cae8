/**
 * Values of one price index: append-only correction chains, manual entry and CSV import
 * (apps/api/src/pricing/indexes.service.ts, index-connector.ts, pricing-snapshot.ts).
 */
module IndexStore {
  import opened Outcomes
  import opened Sums
  import opened Calendar
  import opened Indexes

  /** A row of the table. Fresh identifiers are modelled by the position of the row. */
  datatype ValueRow = ValueRow(id: nat, period: int, value: real, publishedAt: Day, revision: nat, supersedesId: Option<nat>)

  type Table = seq<ValueRow>

  datatype Entry = Entry(period: int, value: real, publishedAt: Day, supersedesId: Option<nat>)

  datatype Outcome = Written | NotFound | NotCurrentValue | PeriodAlreadyPublished | InvalidImport

  // -------------------------------------------------------------------- chains

  function OfPeriod(period: int): ValueRow -> seq<ValueRow> {
    (v: ValueRow) => if v.period == period then [v] else []
  }

  function ChainOf(table: Table, period: int): seq<ValueRow> { FlatMap(table, OfPeriod(period)) }

  predicate SupersededIn(v: ValueRow, chain: seq<ValueRow>) { exists w :: w in chain && w.supersedesId == Some(v.id) }

  /** The first value of `rows` that none of `chain` supersedes. */
  function FirstCurrent(rows: seq<ValueRow>, chain: seq<ValueRow>): Option<ValueRow> {
    if rows == [] then None
    else if !SupersededIn(rows[0], chain) then Some(rows[0])
    else FirstCurrent(rows[1..], chain)
  }

  function TipOf(chain: seq<ValueRow>): Option<ValueRow> { FirstCurrent(chain, chain) }

  function FindId(rows: seq<ValueRow>, id: nat): Option<ValueRow> {
    if rows == [] then None else if rows[0].id == id then Some(rows[0]) else FindId(rows[1..], id)
  }

  /** One correction chain: revisions 0, 1, 2..., each superseding the one before. */
  ghost predicate Linear(chain: seq<ValueRow>) {
    forall i :: 0 <= i < |chain| ==> Follows(chain, i)
  }

  predicate Follows(chain: seq<ValueRow>, i: nat)
    requires i < |chain|
  {
    && chain[i].revision == i
    && if i == 0 then chain[i].supersedesId.None? else chain[i].supersedesId == Some(chain[i - 1].id)
  }

  ghost predicate Sound(table: Table) {
    && (forall i :: 0 <= i < |table| ==> table[i].id == i)
    && (forall period :: Linear(ChainOf(table, period)))
  }

  // ------------------------------------------------------------------ what a write does

  function AddOutcome(table: Table, e: Entry): Outcome {
    var chain := ChainOf(table, e.period);
    var tip := TipOf(chain);
    if e.supersedesId.Some? then
      var target := FindId(chain, e.supersedesId.value);
      if target.None? then NotFound
      else if tip.Some? && tip.value.id != target.value.id then NotCurrentValue
      else Written
    else if tip.Some? then PeriodAlreadyPublished
    else Written
  }

  function AddedRow(table: Table, e: Entry): ValueRow {
    var target := if e.supersedesId.None? then None else FindId(ChainOf(table, e.period), e.supersedesId.value);
    ValueRow(|table|, e.period, e.value, e.publishedAt, if target.None? then 0 else target.value.revision + 1, e.supersedesId)
  }

  datatype ImportRow = ImportRow(line: nat, period: int, value: real, publishedAt: Option<Day>)

  datatype Parsed = Parsed(rows: seq<ImportRow>, errors: seq<nat>)

  /** A period already published with another value contradicts the file. */
  predicate Contradicts(table: Table, r: ImportRow) {
    var tip := TipOf(ChainOf(table, r.period));
    tip.Some? && tip.value.value != r.value
  }

  predicate Unpublished(table: Table, r: ImportRow) { TipOf(ChainOf(table, r.period)).None? }

  function ToCreate(table: Table): ImportRow -> seq<ImportRow> {
    (r: ImportRow) => if Unpublished(table, r) then [r] else []
  }

  function Created(table: Table, rows: seq<ImportRow>, today: Day): Table {
    if rows == [] then table
    else
      var before := Created(table, rows[..|rows| - 1], today);
      var r := rows[|rows| - 1];
      before + [ValueRow(|before|, r.period, r.value, r.publishedAt.GetOr(today), 0, None)]
  }

  function ImportOutcome(table: Table, p: Parsed): Outcome {
    if p.errors != [] || (exists r :: r in p.rows && Contradicts(table, r)) || p.rows == [] then InvalidImport else Written
  }

  function Imported(table: Table, p: Parsed, today: Day): Table {
    Created(table, FlatMap(p.rows, ToCreate(table)), today)
  }

  // ------------------------------------------------------------------------ a step

  datatype Step = Add(entry: Entry) | Import(parsed: Parsed, today: Day)

  function After(table: Table, step: Step): Table {
    match step
    case Add(e) => if AddOutcome(table, e) == Written then table + [AddedRow(table, e)] else table
    case Import(p, today) => if ImportOutcome(table, p) == Written then Imported(table, p, today) else table
  }

  // ------------------------------------------------------------------------ the table

  class Store {
    var table: Table

    constructor ()
      ensures table == []
    {
      table := [];
    }

    method AddValue(e: Entry) returns (r: Outcome)
      modifies this
      ensures r == AddOutcome(old(table), e)
      ensures table == if r == Written then old(table) + [AddedRow(old(table), e)] else old(table)
    {
      var chain := Group(e.period);
      var tip := TipOf(chain);
      if e.supersedesId.Some? {
        var target := FindId(chain, e.supersedesId.value);
        if target.None? {
          return NotFound;
        }
        if tip.Some? && tip.value.id != target.value.id {
          return NotCurrentValue;
        }
        table := table + [ValueRow(|table|, e.period, e.value, e.publishedAt, target.value.revision + 1, Some(target.value.id))];
        FoundId(chain, e.supersedesId.value);
        return Written;
      }
      if tip.Some? {
        return PeriodAlreadyPublished;
      }
      table := table + [ValueRow(|table|, e.period, e.value, e.publishedAt, 0, None)];
      r := Written;
    }

    /** The rows of one period, in their order. */
    method Group(period: int) returns (chain: seq<ValueRow>)
      ensures chain == ChainOf(table, period)
    {
      chain := [];
      for i := 0 to |table|
        invariant chain == FlatMap(table[..i], OfPeriod(period))
      {
        FlatMapStep(table, i, OfPeriod(period));
        if table[i].period == period {
          chain := chain + [table[i]];
        }
      }
      assert table[..|table|] == table;
    }

    /** Rows to create, rows found unchanged, and the lines that contradict a published value. */
    method Compare(rows: seq<ImportRow>) returns (toCreate: seq<ImportRow>, unchanged_: nat, contradicting: seq<nat>)
      ensures toCreate == FlatMap(rows, ToCreate(table))
      ensures contradicting == [] <==> forall r :: r in rows ==> !Contradicts(table, r)
      ensures contradicting == [] ==> |toCreate| + unchanged_ == |rows|
    {
      hide Unpublished, Contradicts;
      toCreate, contradicting, unchanged_ := [], [], 0;
      for i := 0 to |rows|
        invariant toCreate == FlatMap(rows[..i], ToCreate(table))
        invariant contradicting == [] <==> forall k :: 0 <= k < i ==> !Contradicts(table, rows[k])
        invariant contradicting == [] ==> |toCreate| + unchanged_ == i
      {
        FlatMapStep(rows, i, ToCreate(table));
        var row := rows[i];
        UnpublishedDoesNotContradict(table, row);
        if Unpublished(table, row) {
          toCreate := toCreate + [row];
        } else if !Contradicts(table, row) {
          unchanged_ := unchanged_ + 1;
        } else {
          contradicting := contradicting + [row.line];
        }
      }
      assert rows[..|rows|] == rows;
    }

    method CreateRows(rows: seq<ImportRow>, today: Day)
      modifies this
      ensures table == Created(old(table), rows, today)
    {
      for k := 0 to |rows|
        invariant table == Created(old(table), rows[..k], today)
      {
        assert rows[..k + 1][..k] == rows[..k];
        table := table + [ValueRow(|table|, rows[k].period, rows[k].value, rows[k].publishedAt.GetOr(today), 0, None)];
      }
      assert rows[..|rows|] == rows;
    }

    /** All or nothing: one bad or contradicting line refuses the whole file. */
    method ImportRows(p: Parsed, today: Day) returns (r: Outcome, imported: nat, unchanged_: nat)
      modifies this
      ensures r == ImportOutcome(old(table), p)
      ensures table == if r == Written then Imported(old(table), p, today) else old(table)
      ensures r == Written ==> imported == |FlatMap(p.rows, ToCreate(old(table)))| && imported + unchanged_ == |p.rows|
    {
      hide Contradicts, Created, FlatMap;
      var toCreate, same, contradicting := Compare(p.rows);
      if |p.errors| + |contradicting| > 0 || |p.rows| == 0 {
        return InvalidImport, 0, 0;
      }
      CreateRows(toCreate, today);
      r, imported, unchanged_ := Written, |toCreate|, same;
    }

    /** Whatever an administrator does, the table takes the step specified for it. */
    method Perform(step: Step)
      modifies this
      ensures table == After(old(table), step)
    {
      hide AddOutcome, AddedRow, ImportOutcome, Imported;
      match step {
        case Add(e) =>
          var r := AddValue(e);
        case Import(p, today) =>
          var r, imported, same := ImportRows(p, today);
      }
    }
  }

  lemma UnpublishedDoesNotContradict(table: Table, r: ImportRow)
    ensures Unpublished(table, r) ==> !Contradicts(table, r)
  {
  }

  lemma {:induction false} FoundId(rows: seq<ValueRow>, id: nat)
    ensures FindId(rows, id).Some? ==> FindId(rows, id).value in rows && FindId(rows, id).value.id == id
  {
    if rows != [] {
      FoundId(rows[1..], id);
    }
  }

  // ------------------------------------------------------------------------ one tip

  lemma {:induction false} ChainMembers(table: Table, period: int)
    ensures forall v :: v in ChainOf(table, period) <==> v in table && v.period == period
  {
    forall v
      ensures v in ChainOf(table, period) <==> v in table && v.period == period
    {
      FlatMapMembers(table, OfPeriod(period), v);
    }
  }

  ghost predicate DistinctIds(rows: seq<ValueRow>) {
    forall i, j :: 0 <= i < j < |rows| ==> rows[i].id != rows[j].id
  }

  lemma {:induction false} ChainKeepsIdsDistinct(table: Table, period: int)
    requires forall i :: 0 <= i < |table| ==> table[i].id == i
    ensures DistinctIds(ChainOf(table, period))
    ensures forall v :: v in ChainOf(table, period) ==> v.id < |table|
  {
    if table != [] {
      ChainKeepsIdsDistinct(table[..|table| - 1], period);
    }
  }

  /** In a linear chain, every value but the last is superseded by the next one. */
  lemma OnlyLastIsCurrent(chain: seq<ValueRow>, i: nat)
    requires Linear(chain) && DistinctIds(chain) && i < |chain|
    ensures SupersededIn(chain[i], chain) <==> i < |chain| - 1
  {
    if i < |chain| - 1 {
      assert Follows(chain, i + 1) && chain[i + 1] in chain;
    } else {
      forall j | 0 <= j < |chain|
        ensures chain[j].supersedesId != Some(chain[i].id)
      {
        assert Follows(chain, j);
        assert j > 0 ==> chain[j - 1].id != chain[i].id;
      }
    }
  }

  lemma {:induction false} FirstCurrentFrom(chain: seq<ValueRow>, k: nat)
    requires Linear(chain) && DistinctIds(chain) && k <= |chain|
    ensures FirstCurrent(chain[k..], chain) == if k == |chain| then None else Some(chain[|chain| - 1])
    decreases |chain| - k
  {
    if k < |chain| {
      OnlyLastIsCurrent(chain, k);
      assert chain[k..][1..] == chain[k + 1..];
      FirstCurrentFrom(chain, k + 1);
    }
  }

  /** The tip of a linear chain is its last revision, and there is no other. */
  lemma TipIsLastRevision(chain: seq<ValueRow>)
    requires Linear(chain) && DistinctIds(chain)
    ensures TipOf(chain) == if chain == [] then None else Some(chain[|chain| - 1])
    ensures forall v :: v in chain && !SupersededIn(v, chain) ==> TipOf(chain) == Some(v)
  {
    assert chain[0..] == chain;
    FirstCurrentFrom(chain, 0);
    forall v | v in chain && !SupersededIn(v, chain)
      ensures TipOf(chain) == Some(v)
    {
      var i :| 0 <= i < |chain| && chain[i] == v;
      OnlyLastIsCurrent(chain, i);
    }
  }

  // ---------------------------------------------------------------- writes keep the chains

  lemma AppendedChain(table: Table, v: ValueRow, period: int)
    ensures ChainOf(table + [v], period) == ChainOf(table, period) + (if v.period == period then [v] else [])
  {
    FlatMapAppend(table, [v], OfPeriod(period));
    FlatMapOne(v, OfPeriod(period));
  }

  /** Appending the next revision of a period, or its first value, keeps every chain linear. */
  lemma AppendKeepsSound(table: Table, v: ValueRow)
    requires Sound(table) && v.id == |table|
    requires var chain := ChainOf(table, v.period);
             v.revision == |chain| && v.supersedesId == (if chain == [] then None else Some(chain[|chain| - 1].id))
    ensures Sound(table + [v])
  {
    forall period
      ensures Linear(ChainOf(table + [v], period))
    {
      hide ChainOf, Linear;
      AppendedChain(table, v, period);
      if v.period == period {
        LinearAppend(ChainOf(table, period), v);
      } else {
        assert ChainOf(table, period) + [] == ChainOf(table, period);
      }
    }
  }

  lemma LinearAppend(chain: seq<ValueRow>, v: ValueRow)
    requires Linear(chain) && v.revision == |chain| && v.supersedesId == (if chain == [] then None else Some(chain[|chain| - 1].id))
    ensures Linear(chain + [v])
  {
    var longer := chain + [v];
    forall i | 0 <= i < |longer|
      ensures Follows(longer, i)
    {
      assert i < |chain| ==> Follows(chain, i);
      assert i > 0 ==> longer[i - 1] == chain[i - 1];
    }
  }

  lemma SoundChain(table: Table, period: int)
    requires Sound(table)
    ensures var chain := ChainOf(table, period);
            Linear(chain) && DistinctIds(chain) && TipOf(chain) == if chain == [] then None else Some(chain[|chain| - 1])
  {
    ChainKeepsIdsDistinct(table, period);
    TipIsLastRevision(ChainOf(table, period));
  }

  lemma AddKeepsSound(table: Table, e: Entry)
    requires Sound(table) && AddOutcome(table, e) == Written
    ensures Sound(table + [AddedRow(table, e)])
  {
    hide ChainOf, Linear, Sound, TipOf, FindId, DistinctIds;
    var chain := ChainOf(table, e.period);
    SoundChain(table, e.period);
    if e.supersedesId.Some? {
      FoundId(chain, e.supersedesId.value);
      LinearLast(chain);
      SameId(chain, FindId(chain, e.supersedesId.value).value, |chain| - 1);
    }
    AppendKeepsSound(table, AddedRow(table, e));
  }

  lemma LinearLast(chain: seq<ValueRow>)
    requires Linear(chain) && chain != []
    ensures chain[|chain| - 1].revision == |chain| - 1
  {
    assert Follows(chain, |chain| - 1);
  }

  lemma SameId(chain: seq<ValueRow>, v: ValueRow, k: nat)
    requires DistinctIds(chain) && v in chain && k < |chain| && chain[k].id == v.id
    ensures chain[k] == v
  {
  }

  predicate DistinctPeriods(rows: seq<ImportRow>) {
    forall i, j :: 0 <= i < j < |rows| ==> rows[i].period != rows[j].period
  }

  /** Importing new periods keeps every chain linear, and leaves the other periods alone. */
  lemma {:induction false} CreatedKeepsSound(table: Table, rows: seq<ImportRow>, today: Day)
    requires Sound(table) && DistinctPeriods(rows) && forall r :: r in rows ==> ChainOf(table, r.period) == []
    ensures Sound(Created(table, rows, today))
    ensures forall period :: (forall r :: r in rows ==> r.period != period) ==>
              ChainOf(Created(table, rows, today), period) == ChainOf(table, period)
    ensures forall r :: r in rows ==>
              |ChainOf(Created(table, rows, today), r.period)| == 1 && ChainOf(Created(table, rows, today), r.period)[0].value == r.value
  {
    hide ChainOf, Sound;
    if rows != [] {
      var init, r := rows[..|rows| - 1], rows[|rows| - 1];
      assert rows == init + [r];
      CreatedKeepsSound(table, init, today);
      var before := Created(table, init, today);
      var v := ValueRow(|before|, r.period, r.value, r.publishedAt.GetOr(today), 0, None);
      assert forall q :: q in init ==> q.period != r.period;
      assert ChainOf(before, r.period) == [];
      AppendKeepsSound(before, v);
      forall period
        ensures ChainOf(before + [v], period) == ChainOf(before, period) + (if r.period == period then [v] else [])
      {
        AppendedChain(before, v, period);
      }
    }
  }

  lemma UnpublishedMeansEmpty(table: Table, r: ImportRow)
    requires Sound(table)
    ensures Unpublished(table, r) <==> ChainOf(table, r.period) == []
  {
    ChainKeepsIdsDistinct(table, r.period);
    TipIsLastRevision(ChainOf(table, r.period));
  }

  lemma {:induction false} KeptRowsDistinct(rows: seq<ImportRow>, table: Table)
    requires DistinctPeriods(rows)
    ensures DistinctPeriods(FlatMap(rows, ToCreate(table)))
    ensures forall r :: r in FlatMap(rows, ToCreate(table)) <==> r in rows && Unpublished(table, r)
  {
    hide Unpublished;
    if rows != [] {
      var init, r := rows[..|rows| - 1], rows[|rows| - 1];
      assert rows == init + [r];
      KeptRowsDistinct(init, table);
      var kept := FlatMap(init, ToCreate(table));
      forall i | 0 <= i < |kept|
        ensures kept[i].period != r.period
      {
        assert kept[i] in kept;
      }
    }
  }

  lemma ImportKeepsSound(table: Table, p: Parsed, today: Day)
    requires Sound(table) && DistinctPeriods(p.rows) && ImportOutcome(table, p) == Written
    ensures Sound(Imported(table, p, today))
    ensures forall r :: r in p.rows ==>
              var tip := TipOf(ChainOf(Imported(table, p, today), r.period));
              tip.Some? && tip.value.value == r.value
  {
    hide ChainOf, Sound, TipOf, Unpublished;
    KeptRowsDistinct(p.rows, table);
    var kept := FlatMap(p.rows, ToCreate(table));
    forall r | r in kept
      ensures ChainOf(table, r.period) == []
    {
      UnpublishedMeansEmpty(table, r);
    }
    CreatedKeepsSound(table, kept, today);
    var after := Created(table, kept, today);
    forall r | r in p.rows
      ensures TipOf(ChainOf(after, r.period)).Some? && TipOf(ChainOf(after, r.period)).value.value == r.value
    {
      TipInSound(after, r.period);
      if Unpublished(table, r) {
        assert r in kept;
      } else {
        PublishedTip(table, r);
        if k :| k in kept && k.period == r.period {
          SamePeriodSameState(table, k, r);
        }
      }
    }
  }

  lemma SamePeriodSameState(table: Table, k: ImportRow, r: ImportRow)
    requires k.period == r.period
    ensures Unpublished(table, k) == Unpublished(table, r)
  {
  }

  lemma PublishedTip(table: Table, r: ImportRow)
    requires !Unpublished(table, r) && !Contradicts(table, r)
    ensures TipOf(ChainOf(table, r.period)).Some? && TipOf(ChainOf(table, r.period)).value.value == r.value
  {
  }

  lemma TipInSound(table: Table, period: int)
    requires Sound(table)
    ensures var chain := ChainOf(table, period); TipOf(chain) == if chain == [] then None else Some(chain[|chain| - 1])
  {
    ChainKeepsIdsDistinct(table, period);
    TipIsLastRevision(ChainOf(table, period));
  }

  /** Importing the same file again writes nothing: every row is found unchanged. */
  lemma ReimportWritesNothing(table: Table, p: Parsed, today: Day, later: Day)
    requires Sound(table) && DistinctPeriods(p.rows) && ImportOutcome(table, p) == Written
    ensures ImportOutcome(Imported(table, p, today), p) == Written
    ensures FlatMap(p.rows, ToCreate(Imported(table, p, today))) == []
    ensures Imported(Imported(table, p, today), p, later) == Imported(table, p, today)
  {
    hide ChainOf, TipOf, Sound, Imported;
    ImportKeepsSound(table, p, today);
    var after := Imported(table, p, today);
    assert forall r :: r in p.rows ==> !Unpublished(after, r) && !Contradicts(after, r);
    NothingToCreate(p.rows, after);
    assert Created(after, [], later) == after;
    assert Imported(after, p, later) == after by { ImportedIs(after, p, later); }
  }

  lemma ImportedIs(table: Table, p: Parsed, today: Day)
    ensures Imported(table, p, today) == Created(table, FlatMap(p.rows, ToCreate(table)), today)
  {
  }

  lemma {:induction false} NothingToCreate(rows: seq<ImportRow>, table: Table)
    requires forall r :: r in rows ==> !Unpublished(table, r)
    ensures FlatMap(rows, ToCreate(table)) == []
  {
    hide Unpublished;
    if rows != [] {
      NothingToCreate(rows[..|rows| - 1], table);
    }
  }

  // ------------------------------------------------------------------------ every run

  function Run(steps: seq<Step>): Table {
    if steps == [] then [] else After(Run(steps[..|steps| - 1]), steps[|steps| - 1])
  }

  /** Any sequence of entries and imports, performed one after the other on a new table, is a run. */
  method Perform(steps: seq<Step>) returns (store: Store)
    ensures store.table == Run(steps)
  {
    hide After;
    store := new Store();
    for i := 0 to |steps|
      invariant store.table == Run(steps[..i])
    {
      assert steps[..i + 1][..i] == steps[..i];
      store.Perform(steps[i]);
    }
    assert steps[..|steps|] == steps;
  }

  /** Imports come out of a connector, which never gives a period twice. */
  ghost predicate FromConnector(steps: seq<Step>) {
    forall s :: s in steps && s.Import? ==> DistinctPeriods(s.parsed.rows)
  }

  /** Over every run of entries, corrections and imports, each period keeps one linear chain. */
  lemma {:induction false} RunsStaySound(steps: seq<Step>)
    requires FromConnector(steps)
    ensures Sound(Run(steps))
  {
    hide AddOutcome, AddedRow, ImportOutcome, Imported, Sound;
    if steps == [] {
      EmptyIsSound();
    } else {
      var init, last := steps[..|steps| - 1], steps[|steps| - 1];
      assert last in steps && forall s :: s in init ==> s in steps;
      RunsStaySound(init);
      match last
      case Add(e) =>
        if AddOutcome(Run(init), e) == Written {
          AddKeepsSound(Run(init), e);
        }
      case Import(p, today) =>
        if ImportOutcome(Run(init), p) == Written {
          ImportKeepsSound(Run(init), p, today);
        }
    }
  }

  lemma EmptyIsSound()
    ensures Sound([])
  {
    assert forall period :: ChainOf([], period) == [];
  }

  // ------------------------------------------------------ what the engine is given

  function Current(table: Table, dec: real -> string): ValueRow -> seq<IndexValue> {
    (v: ValueRow) => if SupersededIn(v, table) then [] else [IndexValue(v.period, dec(v.value), v.publishedAt)]
  }

  /** `currentValues`: the values that no other supersedes. */
  function CurrentValues(table: Table, dec: real -> string): seq<IndexValue> { FlatMap(table, Current(table, dec)) }

  /** Superseding stays within a period: looking at the whole table or at the chain is the same. */
  lemma SupersededWithinChain(table: Table, v: ValueRow)
    requires Sound(table) && v in table
    ensures SupersededIn(v, table) <==> SupersededIn(v, ChainOf(table, v.period))
  {
    ChainMembers(table, v.period);
    if SupersededIn(v, table) {
      var w :| w in table && w.supersedesId == Some(v.id);
      ChainMembers(table, w.period);
      var chain := ChainOf(table, w.period);
      assert Linear(chain);
      var j :| 0 <= j < |chain| && chain[j] == w;
      assert Follows(chain, j);
      var before := chain[j - 1];
      assert before in chain && before in table && before.id == v.id;
      var a :| 0 <= a < |table| && table[a] == before;
      var b :| 0 <= b < |table| && table[b] == v;
      assert before == v;
    }
  }

  lemma CurrentIsTip(table: Table, v: ValueRow)
    requires Sound(table) && v in table
    ensures !SupersededIn(v, table) <==> TipOf(ChainOf(table, v.period)) == Some(v)
  {
    SupersededWithinChain(table, v);
    ChainMembers(table, v.period);
    ChainKeepsIdsDistinct(table, v.period);
    var chain := ChainOf(table, v.period);
    TipIsLastRevision(chain);
    var i :| 0 <= i < |chain| && chain[i] == v;
    OnlyLastIsCurrent(chain, i);
    if i < |chain| - 1 {
      assert chain[i].id != chain[|chain| - 1].id;
    }
  }

  lemma {:induction false} CurrentPeriods(rows: seq<ValueRow>, table: Table, dec: real -> string)
    requires Sound(table) && rows <= table
    ensures var values := FlatMap(rows, Current(table, dec));
            && (forall i, j :: 0 <= i < j < |values| ==> values[i].period != values[j].period)
            && forall x :: x in values ==> exists v :: v in rows && !SupersededIn(v, table) && x.period == v.period
  {
    hide SupersededIn, Sound;
    if rows != [] {
      var init, v := rows[..|rows| - 1], rows[|rows| - 1];
      assert rows == init + [v] && init <= table && v in table;
      CurrentPeriods(init, table, dec);
      if !SupersededIn(v, table) {
        var before := FlatMap(init, Current(table, dec));
        forall i | 0 <= i < |before|
          ensures before[i].period != v.period
        {
          var w :| w in init && !SupersededIn(w, table) && before[i].period == w.period;
          if w.period == v.period {
            CurrentIsTip(table, v);
            assert w in table;
            CurrentIsTip(table, w);
            assert w == v;
            TwiceInTable(table, rows, v);
          }
        }
      }
    }
  }

  lemma TwiceInTable(table: Table, rows: seq<ValueRow>, v: ValueRow)
    requires Sound(table) && rows <= table && rows != [] && v == rows[|rows| - 1]
    ensures v !in rows[..|rows| - 1]
  {
    forall i | 0 <= i < |rows| - 1
      ensures rows[i] != v
    {
      assert rows[i] == table[i];
    }
  }

  /**
   * After any run the engine is given one value per period, the tip of its chain: it never meets a
   * duplicate.
   */
  lemma OneCurrentValuePerPeriod(steps: seq<Step>, dec: real -> string)
    requires FromConnector(steps)
    ensures var values := CurrentValues(Run(steps), dec);
            && (forall i, j :: 0 <= i < j < |values| ==> values[i].period != values[j].period)
            && CheckValues(values) != Err(DUPLICATE_INDEX_VALUE)
  {
    hide Sound, CheckValues;
    RunsStaySound(steps);
    var table := Run(steps);
    CurrentPeriods(table, table, dec);
    NoDuplicate(CurrentValues(table, dec));
  }

  lemma {:induction false} NoDuplicate(values: seq<IndexValue>)
    requires forall i, j :: 0 <= i < j < |values| ==> values[i].period != values[j].period
    ensures CheckValues(values) != Err(DUPLICATE_INDEX_VALUE)
  {
    if values != [] {
      var init, v := values[..|values| - 1], values[|values| - 1];
      NoDuplicate(init);
      assert CheckValue(v) != Err(DUPLICATE_INDEX_VALUE) by { ValueErrors(v); }
      hide CheckValue;
      assert v.period !in Periods(init);
    }
  }

  lemma ValueErrors(v: IndexValue)
    ensures CheckValue(v) != Err(DUPLICATE_INDEX_VALUE)
  {
  }

  // --------------------------------------------------- what a write changes for the engine

  function Seen(v: ValueRow, dec: real -> string): IndexValue { IndexValue(v.period, dec(v.value), v.publishedAt) }

  /** The engine sees a value when some row says it and is the tip of its period. */
  lemma SeenIsTip(table: Table, dec: real -> string, x: IndexValue)
    requires Sound(table)
    ensures x in CurrentValues(table, dec) <==>
              TipOf(ChainOf(table, x.period)).Some? && Seen(TipOf(ChainOf(table, x.period)).value, dec) == x
  {
    hide SupersededIn, TipOf, Sound, ChainOf;
    FlatMapMembers(table, Current(table, dec), x);
    var tip := TipOf(ChainOf(table, x.period));
    TipIsInTable(table, x.period);
    if x in CurrentValues(table, dec) {
      var v :| v in table && x in Current(table, dec)(v);
      CurrentIsTip(table, v);
    }
    if tip.Some? && Seen(tip.value, dec) == x {
      CurrentIsTip(table, tip.value);
      assert x in Current(table, dec)(tip.value);
    }
  }

  lemma TipIsInTable(table: Table, period: int)
    requires Sound(table)
    ensures var tip := TipOf(ChainOf(table, period)); tip.Some? ==> tip.value in table && tip.value.period == period
  {
    TipInSound(table, period);
    ChainMembers(table, period);
  }

  /** After a written entry the tip of its period is the entry, the other tips are what they were. */
  lemma TipsAfterAdd(table: Table, e: Entry, period: int)
    requires Sound(table) && AddOutcome(table, e) == Written
    ensures var after := table + [AddedRow(table, e)];
            TipOf(ChainOf(after, period)) == if period == e.period then Some(AddedRow(table, e)) else TipOf(ChainOf(table, period))
  {
    hide TipOf, Sound, ChainOf, AddOutcome, AddedRow;
    var v := AddedRow(table, e);
    AddKeepsSound(table, e);
    AddedPeriod(table, e);
    AppendedChain(table, v, period);
    TipInSound(table, period);
    TipInSound(table + [v], period);
    assert ChainOf(table, period) + [] == ChainOf(table, period);
  }

  lemma AddedPeriod(table: Table, e: Entry)
    ensures AddedRow(table, e).period == e.period && AddedRow(table, e).value == e.value && AddedRow(table, e).publishedAt == e.publishedAt
  {
  }

  /**
   * A written entry is what the engine now sees of its period, and nothing else changes: the first
   * value of a period is added to the others; a correction takes the place of the value it corrects,
   * so it holds for past dates too.
   */
  lemma EntryReplacesItsPeriod(table: Table, e: Entry, dec: real -> string)
    requires Sound(table) && AddOutcome(table, e) == Written
    ensures var after := table + [AddedRow(table, e)];
            && (forall x :: x in CurrentValues(after, dec) <==>
                  x == IndexValue(e.period, dec(e.value), e.publishedAt) || (x in CurrentValues(table, dec) && x.period != e.period))
            && (e.supersedesId.None? ==> forall x :: x in CurrentValues(table, dec) ==> x.period != e.period)
  {
    hide TipOf, Sound, ChainOf, AddedRow, CurrentValues;
    var after := table + [AddedRow(table, e)];
    AddKeepsSound(table, e);
    AddedPeriod(table, e);
    forall x
      ensures x in CurrentValues(after, dec) <==>
                x == IndexValue(e.period, dec(e.value), e.publishedAt) || (x in CurrentValues(table, dec) && x.period != e.period)
      ensures e.supersedesId.None? && x in CurrentValues(table, dec) ==> x.period != e.period
    {
      SeenIsTip(table, dec, x);
      SeenIsTip(after, dec, x);
      TipsAfterAdd(table, e, x.period);
    }
  }

  /**
   * A value published for a new period changes no LATEST_PUBLISHED lookup from a day before its
   * publication: prices already computed are found again.
   */
  lemma NewPeriodKeepsPastLookups(table: Table, e: Entry, dec: real -> string, day: Day)
    requires Sound(table) && AddOutcome(table, e) == Written && e.supersedesId.None? && day < e.publishedAt
    requires CheckValues(CurrentValues(table, dec)).Ok? && CheckValues(CurrentValues(table + [AddedRow(table, e)], dec)).Ok?
    ensures Best(CurrentValues(table + [AddedRow(table, e)], dec), day, LATEST_PUBLISHED) == Best(CurrentValues(table, dec), day, LATEST_PUBLISHED)
  {
    hide CurrentValues, Sound, AddOutcome, AddedRow, CheckValues, Best;
    EntryReplacesItsPeriod(table, e, dec);
    BestReplays(CurrentValues(table, dec), CurrentValues(table + [AddedRow(table, e)], dec), day, LATEST_PUBLISHED);
  }
}
