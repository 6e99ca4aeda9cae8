/**
 * What each write on an index does (apps/api/src/pricing/indexes.service.ts), told from the rows of the table:
 * first values, corrections and imports, each accepted or refused for its own cause.
 */
module ValueSteps {
  import opened Outcomes
  import opened Sums
  import opened Calendar
  import opened IndexStore

  /** The value of a month that nothing supersedes. */
  predicate Current(table: Table, period: int, v: ValueRow) {
    v in table && v.period == period && forall w :: w in table ==> w.supersedesId != Some(v.id)
  }

  predicate Published(table: Table, period: int) { exists v :: v in table && v.period == period }

  /** Corrections stay inside their month. */
  lemma CurrentIsTip(table: Table, period: int)
    requires Sound(table)
    ensures TipOf(ChainOf(table, period)).None? <==> !Published(table, period)
    ensures forall v :: TipOf(ChainOf(table, period)) == Some(v) <==> Current(table, period, v)
  {
    var chain := ChainOf(table, period);
    ChainMembers(table, period);
    ChainKeepsIdsDistinct(table, period);
    hide FlatMap, Follows, TipOf;
    TipIsLastRevision(chain);
    if chain != [] {
      TipIsUnsuperseded(chain);
    }
    forall v | v in chain
      ensures SupersededIn(v, chain) <==> exists w :: w in table && w.supersedesId == Some(v.id)
    {
      if w :| w in table && w.supersedesId == Some(v.id) {
        SupersedesItsMonth(table, w, v);
      }
    }
  }

  lemma TipIsUnsuperseded(chain: seq<ValueRow>)
    requires Linear(chain) && DistinctIds(chain) && chain != []
    ensures !SupersededIn(chain[|chain| - 1], chain)
  {
    OnlyLastIsCurrent(chain, |chain| - 1);
  }

  lemma SupersedesItsMonth(table: Table, w: ValueRow, v: ValueRow)
    requires Sound(table) && w in table && v in table && w.supersedesId == Some(v.id)
    ensures w.period == v.period
  {
    var chain := ChainOf(table, w.period);
    ChainMembers(table, w.period);
    assert w in chain;
    var i :| 0 <= i < |chain| && chain[i] == w;
    assert Follows(chain, i);
    assert chain[i - 1] in chain;
    var a :| 0 <= a < |table| && table[a] == v;
    var b :| 0 <= b < |table| && table[b] == chain[i - 1];
    assert a == b;
  }

  // ---------------------------------------------------------------------- one entry

  /** The value entered, as a row: the first of its month, or the next revision of the one it corrects. */
  ghost predicate EntryReads(table: Table, e: Entry, r: Outcome, after: Table) {
    match e.supersedesId
    case None =>
      if Published(table, e.period) then r == PeriodAlreadyPublished && after == table
      else r == Written && after == table + [ValueRow(|table|, e.period, e.value, e.publishedAt, 0, None)]
    case Some(id) =>
      if forall v :: v in table && v.period == e.period ==> v.id != id then r == NotFound && after == table
      else if forall v :: Current(table, e.period, v) ==> v.id != id then r == NotCurrentValue && after == table
      else
        && r == Written
        && exists v :: Current(table, e.period, v) && v.id == id
                       && after == table + [ValueRow(|table|, e.period, e.value, e.publishedAt, v.revision + 1, Some(id))]
  }

  lemma IdFound(table: Table, period: int, id: nat)
    requires Sound(table)
    ensures var found := FindId(ChainOf(table, period), id);
            && (found.None? <==> forall v :: v in table && v.period == period ==> v.id != id)
            && (found.Some? ==> found.value in table && found.value.period == period && found.value.id == id)
  {
    ChainMembers(table, period);
    hide FlatMap, Linear;
    FoundOrNot(ChainOf(table, period), id);
  }

  lemma {:induction false} FoundOrNot(rows: seq<ValueRow>, id: nat)
    ensures FindId(rows, id).None? <==> forall v :: v in rows ==> v.id != id
    ensures FindId(rows, id).Some? ==> FindId(rows, id).value in rows && FindId(rows, id).value.id == id
  {
    if rows != [] {
      FoundOrNot(rows[1..], id);
      assert rows == [rows[0]] + rows[1..];
    }
  }

  lemma OneRowPerId(table: Table, v: ValueRow, w: ValueRow)
    requires Sound(table) && v in table && w in table && v.id == w.id
    ensures v == w
  {
    var a :| 0 <= a < |table| && table[a] == v;
    var b :| 0 <= b < |table| && table[b] == w;
  }

  lemma EntryIsRead(table: Table, e: Entry)
    requires Sound(table)
    ensures EntryReads(table, e, AddOutcome(table, e), After(table, Add(e)))
  {
    hide TipOf, ChainOf, FindId, Current, Published, Sound;
    CurrentIsTip(table, e.period);
    if e.supersedesId.Some? {
      IdFound(table, e.period, e.supersedesId.value);
      CorrectionIsRead(table, e, e.supersedesId.value);
    }
  }

  lemma CorrectionIsRead(table: Table, e: Entry, id: nat)
    requires Sound(table) && e.supersedesId == Some(id)
    ensures EntryReads(table, e, AddOutcome(table, e), After(table, Add(e)))
  {
    hide TipOf, ChainOf, FindId, Current, Published, Sound;
    IdFound(table, e.period, id);
    CurrentIsTip(table, e.period);
    var tip, target := TipOf(ChainOf(table, e.period)), FindId(ChainOf(table, e.period), id);
    if target.Some? {
      PublishedByRow(table, target.value);
      CurrentIsRow(table, e.period, tip.value);
      if tip.value.id == id {
        OneRowPerId(table, tip.value, target.value);
      }
    }
  }

  lemma PublishedByRow(table: Table, v: ValueRow)
    requires v in table
    ensures Published(table, v.period)
  {
  }

  lemma CurrentIsRow(table: Table, period: int, v: ValueRow)
    requires Current(table, period, v)
    ensures v in table && v.period == period
  {
  }

  // ---------------------------------------------------------------------- an import

  /** `at` lists, in order, the places of the rows whose month has no value yet. */
  ghost predicate NewPlaces(table: Table, rows: seq<ImportRow>, at: seq<int>) {
    && (forall j, k :: 0 <= j < k < |at| ==> at[j] < at[k])
    && (forall i :: i in at <==> 0 <= i < |rows| && !Published(table, rows[i].period))
  }

  /** One first value for each of these rows, out on the day given or else on the day of the import. */
  ghost predicate CreatesAt(table: Table, rows: seq<ImportRow>, at: seq<int>, today: Day, after: Table) {
    && |after| == |table| + |at| && after[..|table|] == table
    && forall k :: 0 <= k < |at| ==> 0 <= at[k] < |rows| && after[|table| + k] == FirstValue(|table| + k, rows[at[k]], today)
  }

  function FirstValue(id: nat, r: ImportRow, today: Day): ValueRow {
    ValueRow(id, r.period, r.value, if r.publishedAt.Some? then r.publishedAt.value else today, 0, None)
  }

  /** An import with an error, without a row, or against a published value changes nothing. */
  ghost predicate ImportRefused(table: Table, p: Parsed) {
    p.errors != [] || p.rows == [] || exists r, v :: r in p.rows && Current(table, r.period, v) && v.value != r.value
  }

  lemma {:induction false} PlacesOfNew(table: Table, rows: seq<ImportRow>) returns (at: seq<int>)
    requires Sound(table)
    ensures NewPlaces(table, rows, at) && Picks(FlatMap(rows, ToCreate(table)), rows, at)
  {
    if rows == [] {
      at := [];
    } else {
      var init, last := rows[..|rows| - 1], rows[|rows| - 1];
      assert rows == init + [last];
      at := PlacesOfNew(table, init);
      hide *;
      NextNew(table, init, last, at);
      NextPicked(table, init, last, at);
      at := at + if Published(table, last.period) then [] else [|init|];
    }
  }

  lemma NextPicked(table: Table, init: seq<ImportRow>, last: ImportRow, at: seq<int>)
    requires Sound(table) && Picks(FlatMap(init, ToCreate(table)), init, at)
    ensures Picks(FlatMap(init + [last], ToCreate(table)), init + [last], at + if Published(table, last.period) then [] else [|init|])
  {
    CreatesRow(table, last);
    FlatMapSnoc(init, last, ToCreate(table));
    hide *;
    PickMore(FlatMap(init, ToCreate(table)), init, last, at);
  }

  lemma CreatesRow(table: Table, r: ImportRow)
    requires Sound(table)
    ensures ToCreate(table)(r) == if Published(table, r.period) then [] else [r]
  {
    CurrentIsTip(table, r.period);
    hide TipOf, ChainOf, Published, Current, Sound;
  }

  lemma PickMore(found: seq<ImportRow>, init: seq<ImportRow>, last: ImportRow, at: seq<int>)
    requires Picks(found, init, at)
    ensures Picks(found + [], init + [last], at + []) && Picks(found + [last], init + [last], at + [|init|])
  {
    assert at + [] == at && found + [] == found;
  }

  ghost predicate Picks(found: seq<ImportRow>, rows: seq<ImportRow>, at: seq<int>) {
    |found| == |at| && forall k :: 0 <= k < |at| ==> 0 <= at[k] < |rows| && found[k] == rows[at[k]]
  }

  lemma NextNew(table: Table, init: seq<ImportRow>, last: ImportRow, at: seq<int>)
    requires NewPlaces(table, init, at)
    ensures NewPlaces(table, init + [last], at + if Published(table, last.period) then [] else [|init|])
  {
    hide Published;
    var more := at + if Published(table, last.period) then [] else [|init|];
    var rows := init + [last];
    forall j, k | 0 <= j < k < |more|
      ensures more[j] < more[k]
    {
      assert more[j] in at;
    }
    forall i
      ensures i in more <==> 0 <= i < |rows| && !Published(table, rows[i].period)
    {
      assert i in more <==> i in at || (i == |init| && !Published(table, last.period));
    }
  }

  lemma {:induction false} CreatedInOrder(table: Table, rows: seq<ImportRow>, today: Day)
    ensures var after := Created(table, rows, today);
            && |after| == |table| + |rows| && after[..|table|] == table
            && forall k :: 0 <= k < |rows| ==> after[|table| + k] == FirstValue(|table| + k, rows[k], today)
  {
    if rows != [] {
      CreatedInOrder(table, rows[..|rows| - 1], today);
    }
  }

  lemma ContradictionReads(table: Table, r: ImportRow)
    requires Sound(table)
    ensures Contradicts(table, r) <==> exists v :: Current(table, r.period, v) && v.value != r.value
  {
    CurrentIsTip(table, r.period);
    hide TipOf, ChainOf, Sound, Current;
  }

  lemma ImportIsRead(table: Table, p: Parsed, today: Day)
    requires Sound(table)
    ensures ImportOutcome(table, p) == (if ImportRefused(table, p) then InvalidImport else Written)
    ensures var after := After(table, Import(p, today));
            if ImportRefused(table, p) then after == table
            else exists at :: NewPlaces(table, p.rows, at) && CreatesAt(table, p.rows, at, today, after)
  {
    hide Contradicts, Created, Current, Published, Sound, FlatMap, NewPlaces, CreatesAt;
    forall r
      ensures Contradicts(table, r) <==> exists v :: Current(table, r.period, v) && v.value != r.value
    {
      ContradictionReads(table, r);
    }
    var at := PlacesOfNew(table, p.rows);
    PickedAreCreated(table, p.rows, FlatMap(p.rows, ToCreate(table)), at, today);
  }

  lemma PickedAreCreated(table: Table, rows: seq<ImportRow>, found: seq<ImportRow>, at: seq<int>, today: Day)
    requires Picks(found, rows, at)
    ensures CreatesAt(table, rows, at, today, Created(table, found, today))
  {
    CreatedInOrder(table, found, today);
    hide Created, FirstValue;
  }
}
