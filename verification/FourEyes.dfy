/**
 * Which override applies, told from the figures (packages/pricing/src/overrides.ts), and when a creation waits
 * for a second pair of eyes (apps/api/src/pricing/overrides.service.ts): gaps by products, periods by days.
 */
module FourEyes {
  import opened Outcomes
  import opened Sums
  import opened Money
  import opened DecimalText
  import opened Calendar
  import opened Overrides
  import CsvText
  import OverrideStore

  /** The price differs from the computed one by more than `threshold` percent of it, or from nothing at all. */
  predicate TooFar(price: real, computed: real, threshold: real) {
    if computed == 0.0 then price != 0.0 || threshold < 0.0
    else Abs(price - computed) * 100.0 > threshold * Abs(computed)
  }

  predicate OtherApprover(o: PriceOverride) {
    o.approvedBy.Some? && o.approvedBy.value != "" && o.approvedBy.value != o.authorId
  }

  /** The override may apply on that day: its period covers it, it has a reason, and approval if it goes too far. */
  predicate MayApply(o: PriceOverride, c: Case) {
    && o.validFrom <= c.date <= o.validTo && !Blank(o.reason)
    && ParseDecimal(o.unitPrice, 6, false).Ok?
    && (TooFar(ParseDecimal(o.unitPrice, 6, false).value, c.computed, c.threshold) ==> OtherApprover(o))
  }

  /** Why a covering override is skipped. */
  predicate SkippedFor(o: PriceOverride, reason: SkipReason, c: Case) {
    && o.validFrom <= c.date <= o.validTo && ParseDecimal(o.unitPrice, 6, false).Ok?
    && var far := TooFar(ParseDecimal(o.unitPrice, 6, false).value, c.computed, c.threshold);
       match reason
       case EMPTY_REASON => Blank(o.reason)
       case REQUIRES_SECOND_APPROVAL => !Blank(o.reason) && far && (o.approvedBy.None? || o.approvedBy.value == "")
       case SELF_APPROVAL => !Blank(o.reason) && far && o.approvedBy == Some(o.authorId) && o.authorId != ""
       case SUPERSEDED => MayApply(o, c)
  }

  lemma PercentByProducts(diff: real, base: real, threshold: real)
    requires base > 0.0
    ensures diff / base * 100.0 * base == diff * 100.0
    ensures diff / base * 100.0 > threshold <==> diff * 100.0 > threshold * base
  {
    var gap := diff / base * 100.0;
    assert gap * base == diff * 100.0;
    Ordered(gap, threshold, base);
  }

  lemma Ordered(x: real, y: real, base: real)
    requires base > 0.0
    ensures x > y <==> x * base > y * base
  {
    assert (x - y) * base == x * base - y * base;
    if x > y {
      assert (x - y) * base > 0.0;
    } else {
      assert (y - x) * base >= 0.0;
    }
  }

  /** The gap shown is the difference in percent of the computed price; it has none only against nothing. */
  lemma GapIsPercent(price: real, computed: real, threshold: real)
    ensures var gap := GapPercent(price, computed);
            && (gap.None? <==> computed == 0.0 && price != 0.0)
            && (gap.Some? ==> gap.value * Abs(computed) == Abs(price - computed) * 100.0 && (computed == 0.0 ==> gap.value == 0.0))
            && (NeedsSecondApproval(gap, threshold) <==> TooFar(price, computed, threshold))
  {
    if computed != 0.0 {
      PercentByProducts(Abs(price - computed), Abs(computed), threshold);
    }
  }

  lemma JudgedOnMerits(o: PriceOverride, c: Case)
    requires Covers(o, c.date) ==> Price(o).Ok?
    ensures MayApply(o, c) <==> Covers(o, c.date) && Refusal(o, c.Judge(o).requiresSecondApproval).None?
    ensures c.Accepted()(o) == if MayApply(o, c) then [c.Judge(o)] else []
    ensures Covers(o, c.date) && !MayApply(o, c) ==>
              exists reason :: reason != SUPERSEDED && SkippedFor(o, reason, c)
                && c.Refused()(o) == [Skipped(o.id, reason, GapPercent(Price(o).value, c.computed))]
    ensures !Covers(o, c.date) || MayApply(o, c) ==> c.Refused()(o) == []
  {
    hide ParseDecimal, GapPercent, Blank, TooFar, NeedsSecondApproval;
    if Covers(o, c.date) {
      GapIsPercent(Price(o).value, c.computed, c.threshold);
      if !MayApply(o, c) {
        assert SkippedFor(o, Refusal(o, c.Judge(o).requiresSecondApproval).value, c);
      }
    }
  }

  /** Counts the overrides that may apply and start on `day`. */
  function MayStart(c: Case, day: Day): PriceOverride -> int {
    (o: PriceOverride) => if MayApply(o, c) && o.validFrom == day then 1 else 0
  }

  lemma StartsAreCounted(overrides: seq<PriceOverride>, c: Case, day: Day)
    requires forall o :: o in overrides ==> c.Readable(o)
    ensures SumBy(FlatMap(overrides, c.Accepted()), StartsOn(day)) == SumBy(overrides, MayStart(c, day))
  {
    hide MayApply, GapPercent, Price, Refusal;
    forall o | o in overrides
      ensures SumBy(c.Accepted()(o), StartsOn(day)) == MayStart(c, day)(o)
    {
      AcceptedWhen(o, c);
      if MayApply(o, c) {
        SumByOne(c.Judge(o), StartsOn(day));
      }
    }
    SumOfFlatMap(overrides, c.Accepted(), StartsOn(day), MayStart(c, day));
  }

  lemma AcceptedWhen(o: PriceOverride, c: Case)
    requires c.Readable(o)
    ensures MayApply(o, c) ==> Price(o).Ok?
    ensures c.Accepted()(o) == if MayApply(o, c) then [c.Judge(o)] else []
  {
    JudgedOnMerits(o, c);
  }

  /** Two overrides that may apply start on the same day, and none later. */
  ghost predicate Tie(overrides: seq<PriceOverride>, c: Case) {
    exists i, j :: 0 <= i < j < |overrides| && Tied(overrides, c, i, j)
  }

  ghost predicate Tied(overrides: seq<PriceOverride>, c: Case, i: int, j: int)
    requires 0 <= i < j < |overrides|
  {
    && MayApply(overrides[i], c) && MayApply(overrides[j], c) && overrides[i].validFrom == overrides[j].validFrom
    && forall o :: o in overrides && MayApply(o, c) ==> o.validFrom <= overrides[i].validFrom
  }

  lemma TieIsCounted(overrides: seq<PriceOverride>, c: Case, day: Day)
    requires exists o :: o in overrides && MayApply(o, c) && o.validFrom == day
    requires forall o :: o in overrides && MayApply(o, c) ==> o.validFrom <= day
    ensures SumBy(overrides, MayStart(c, day)) > 1 <==> Tie(overrides, c)
  {
    hide MayApply;
    TwoCount(overrides, MayStart(c, day));
    if i, j :| 0 <= i < j < |overrides| && MayStart(c, day)(overrides[i]) == 1 && MayStart(c, day)(overrides[j]) == 1 {
      assert Tied(overrides, c, i, j);
    }
    if i, j :| 0 <= i < j < |overrides| && Tied(overrides, c, i, j) {
      assert overrides[i] in overrides && overrides[i].validFrom == day;
      assert MayStart(c, day)(overrides[i]) == 1 && MayStart(c, day)(overrides[j]) == 1;
    }
  }

  /** The members of the eligible list. */
  lemma EligibleAre(overrides: seq<PriceOverride>, c: Case)
    requires forall o :: o in overrides ==> c.Readable(o)
    ensures forall o :: o in overrides && MayApply(o, c) ==> Price(o).Ok? && c.Judge(o) in FlatMap(overrides, c.Accepted())
    ensures forall a :: a in FlatMap(overrides, c.Accepted()) ==>
              a.source in overrides && MayApply(a.source, c) && Price(a.source).Ok? && a == c.Judge(a.source)
  {
    hide MayApply, GapPercent, Price, Refusal;
    forall o | o in overrides && MayApply(o, c)
      ensures Price(o).Ok? && c.Judge(o) in FlatMap(overrides, c.Accepted())
    {
      AcceptedWhen(o, c);
      FlatMapMembers(overrides, c.Accepted(), c.Judge(o));
      assert c.Judge(o) in c.Accepted()(o);
    }
    forall a | a in FlatMap(overrides, c.Accepted())
      ensures a.source in overrides && MayApply(a.source, c) && Price(a.source).Ok? && a == c.Judge(a.source)
    {
      FlatMapMembers(overrides, c.Accepted(), a);
      var o :| o in overrides && a in c.Accepted()(o);
      AcceptedWhen(o, c);
    }
  }

  /**
   * Which override applies, told from the list alone: among those that may, the one that starts strictly last;
   * none exactly when none may; an error exactly when two of them tie, or when a covering price is unreadable.
   */
  lemma AppliesExactlyWhen(overrides: seq<PriceOverride>, c: Case)
    ensures Select(overrides, c) == Err(INVALID_DECIMAL)
            <==> exists o :: o in overrides && o.validFrom <= c.date <= o.validTo && ParseDecimal(o.unitPrice, 6, false).Err?
    ensures Select(overrides, c) == Err(AMBIGUOUS_OVERRIDE)
            <==> Tie(overrides, c) && forall o :: o in overrides ==> c.Readable(o)
    ensures Select(overrides, c).Ok? ==>
              var applied := Select(overrides, c).value.applied;
              && (applied.None? <==> forall o :: o in overrides ==> !MayApply(o, c))
              && (applied.Some? ==>
                    var a := applied.value;
                    && a.source in overrides && MayApply(a.source, c) && ParseDecimal(a.source.unitPrice, 6, false) == Ok(a.unitPrice)
                    && a.gapPercent == GapPercent(a.unitPrice, c.computed)
                    && (a.requiresSecondApproval <==> TooFar(a.unitPrice, c.computed, c.threshold))
                    && forall o :: o in overrides && MayApply(o, c) && o != a.source ==> o.validFrom < a.source.validFrom)
  {
    hide MayApply, GapPercent, Refusal, Tie, FlatMap, SumBy, Blank, Select;
    UnreadableCovers(overrides, c);
    SelectUnfolds(overrides, c);
    if forall o :: o in overrides ==> c.Readable(o) {
      EligibleAre(overrides, c);
      if FlatMap(overrides, c.Accepted()) == [] {
        NoTie(overrides, c);
      } else {
        TieRefuses(overrides, c);
        if Select(overrides, c).Ok? {
          AppliedReads(overrides, c);
        }
      }
    }
  }

  lemma SelectUnfolds(overrides: seq<PriceOverride>, c: Case)
    ensures Select(overrides, c) == Err(INVALID_DECIMAL) <==> exists o :: o in overrides && !c.Readable(o)
    ensures Select(overrides, c) == Err(AMBIGUOUS_OVERRIDE) ==> forall o :: o in overrides ==> c.Readable(o)
    ensures (forall o :: o in overrides ==> c.Readable(o)) ==>
              var eligible := FlatMap(overrides, c.Accepted());
              && (eligible == [] ==> Select(overrides, c).Ok? && Select(overrides, c).value.applied.None?)
              && (eligible != [] ==>
                    var latest := eligible[Latest(eligible)];
                    && (Select(overrides, c) == Err(AMBIGUOUS_OVERRIDE) <==> SumBy(eligible, StartsOn(latest.source.validFrom)) > 1)
                    && (Select(overrides, c).Ok? ==> Select(overrides, c).value.applied == Some(latest)))
  {
    hide FlatMap, SumBy;
  }

  lemma TieRefuses(overrides: seq<PriceOverride>, c: Case)
    requires (forall o :: o in overrides ==> c.Readable(o)) && FlatMap(overrides, c.Accepted()) != []
    ensures Select(overrides, c) == Err(AMBIGUOUS_OVERRIDE) <==> Tie(overrides, c)
  {
    hide MayApply, Tie, FlatMap, SumBy, Select;
    SelectUnfolds(overrides, c);
    var eligible := FlatMap(overrides, c.Accepted());
    var latest := eligible[Latest(eligible)];
    LatestMayApply(overrides, c, latest);
    StartsAreCounted(overrides, c, latest.source.validFrom);
    TieIsCounted(overrides, c, latest.source.validFrom);
  }

  lemma AppliedReads(overrides: seq<PriceOverride>, c: Case)
    requires (forall o :: o in overrides ==> c.Readable(o)) && FlatMap(overrides, c.Accepted()) != [] && Select(overrides, c).Ok?
    ensures Select(overrides, c).value.applied.Some?
    ensures var a := Select(overrides, c).value.applied.value;
            && a.source in overrides && MayApply(a.source, c) && ParseDecimal(a.source.unitPrice, 6, false) == Ok(a.unitPrice)
            && a.gapPercent == GapPercent(a.unitPrice, c.computed)
            && (a.requiresSecondApproval <==> TooFar(a.unitPrice, c.computed, c.threshold))
            && forall o :: o in overrides && MayApply(o, c) && o != a.source ==> o.validFrom < a.source.validFrom
  {
    hide MayApply, FlatMap, Select, GapPercent, TooFar, Refusal, ParseDecimal;
    SelectUnfolds(overrides, c);
    EligibleAre(overrides, c);
    var eligible := FlatMap(overrides, c.Accepted());
    var latest := eligible[Latest(eligible)];
    assert latest in eligible;
    GapIsPercent(latest.unitPrice, c.computed, c.threshold);
    AppliedIsStrictlyLatest(overrides, c);
    forall o | o in overrides && MayApply(o, c) && o != latest.source
      ensures o.validFrom < latest.source.validFrom
    {
      assert c.Judge(o) in eligible && c.Judge(o) != latest;
    }
  }

  lemma UnreadableCovers(overrides: seq<PriceOverride>, c: Case)
    ensures (exists o :: o in overrides && !c.Readable(o))
            <==> exists o :: o in overrides && o.validFrom <= c.date <= o.validTo && ParseDecimal(o.unitPrice, 6, false).Err?
  {
    hide ParseDecimal;
    if o :| o in overrides && !c.Readable(o) {
      assert ParseDecimal(o.unitPrice, 6, false).Err?;
    }
    if o :| o in overrides && o.validFrom <= c.date <= o.validTo && ParseDecimal(o.unitPrice, 6, false).Err? {
      assert !c.Readable(o);
    }
  }

  lemma NoTie(overrides: seq<PriceOverride>, c: Case)
    requires forall o :: o in overrides ==> !MayApply(o, c)
    ensures !Tie(overrides, c)
  {
  }

  lemma LatestMayApply(overrides: seq<PriceOverride>, c: Case, latest: Applied)
    requires forall o :: o in overrides ==> c.Readable(o)
    requires var eligible := FlatMap(overrides, c.Accepted()); eligible != [] && latest == eligible[Latest(eligible)]
    ensures latest.source in overrides && MayApply(latest.source, c)
    ensures forall o :: o in overrides && MayApply(o, c) ==> o.validFrom <= latest.source.validFrom
  {
    hide MayApply, GapPercent, Price, Refusal, FlatMap;
    EligibleAre(overrides, c);
    var eligible := FlatMap(overrides, c.Accepted());
    assert latest in eligible;
    forall o | o in overrides && MayApply(o, c)
      ensures o.validFrom <= latest.source.validFrom
    {
      NotLaterThanLatest(eligible, c.Judge(o));
    }
  }

  /** Each override skipped is one that covers the day, with its reason, and the gap it was judged on. */
  lemma SkippedExactlyFor(overrides: seq<PriceOverride>, c: Case)
    requires Select(overrides, c).Ok?
    ensures forall s :: s in Select(overrides, c).value.skipped ==>
              exists o :: o in overrides && s.overrideId == o.id && SkippedFor(o, s.reason, c)
                && s.gapPercent == GapPercent(ParseDecimal(o.unitPrice, 6, false).value, c.computed)
  {
    hide MayApply, GapPercent, Refusal, FlatMap, SumBy, Blank, TooFar;
    var eligible := FlatMap(overrides, c.Accepted());
    EligibleAre(overrides, c);
    forall s | s in Select(overrides, c).value.skipped
      ensures exists o :: o in overrides && s.overrideId == o.id && SkippedFor(o, s.reason, c)
                && s.gapPercent == GapPercent(ParseDecimal(o.unitPrice, 6, false).value, c.computed)
    {
      FlatMapMembers(overrides, c.Refused(), s);
      if s in FlatMap(overrides, c.Refused()) {
        var o :| o in overrides && s in c.Refused()(o);
        JudgedOnMerits(o, c);
      } else {
        var latest := eligible[Latest(eligible)];
        FlatMapMembers(eligible, Superseded(latest), s);
        var a :| a in eligible && s in Superseded(latest)(a);
        MayApplyCovers(a.source, c);
      }
    }
  }

  lemma MayApplyCovers(o: PriceOverride, c: Case)
    requires MayApply(o, c)
    ensures SkippedFor(o, SUPERSEDED, c)
  {
  }

  /** A creation waits for a second approval exactly when its price goes too far, and is in force at once otherwise. */
  lemma WaitsExactlyWhenTooFar(o: PriceOverride, computed: real, threshold: real)
    requires Price(o).Ok?
    ensures var row := OverrideStore.NewRow(o, computed, threshold);
            var far := TooFar(ParseDecimal(o.unitPrice, 6, false).value, computed, threshold);
            && row.status == (if far then OverrideStore.PENDING_APPROVAL else OverrideStore.ACTIVE)
            && row.requiresSecondApproval == far && row.given == o.(approvedBy := None)
            && row.approvedBy.None? && row.rejectedBy.None? && row.cancelledBy.None?
  {
    hide GapPercent, TooFar;
    GapIsPercent(Price(o).value, computed, threshold);
  }

  lemma SpacesAreBlank(c: char)
    ensures CsvText.IsSpace(c) <==> Blank([c])
  {
    assert c in [c] && [c][0] == c;
  }

  lemma {:induction false} BlankIsTrimmed(s: string)
    ensures Blank(s) <==> CsvText.Trim(s) == ""
  {
    SpacesOnly(s);
    StartTrimmed(s);
    var rest := CsvText.TrimStart(s);
    if rest != "" {
      LastLeft(rest);
    }
  }

  lemma SpacesOnly(s: string)
    ensures Blank(s) <==> forall c :: c in s ==> CsvText.IsSpace(c)
  {
    hide CsvText.IsSpace;
    forall c | c in s
      ensures CsvText.IsSpace(c) <==> Blank([c])
    {
      SpacesAreBlank(c);
    }
    if Blank(s) {
      forall c | c in s
        ensures CsvText.IsSpace(c)
      {
        assert forall d :: d in [c] ==> d == c;
        assert Blank([c]);
      }
    }
    if forall c :: c in s ==> CsvText.IsSpace(c) {
      forall c | c in s
        ensures Blank([c]) && c in [c]
      {
      }
    }
  }

  lemma {:induction false} StartTrimmed(s: string)
    ensures var rest := CsvText.TrimStart(s);
            if rest == "" then forall c :: c in s ==> CsvText.IsSpace(c) else !CsvText.IsSpace(rest[0]) && rest[0] in s
  {
    hide CsvText.IsSpace;
    if s != [] && CsvText.IsSpace(s[0]) {
      StartTrimmed(s[1..]);
      assert s == [s[0]] + s[1..];
    }
  }

  lemma {:induction false} LastLeft(s: string)
    requires s != "" && !CsvText.IsSpace(s[0])
    ensures CsvText.TrimEnd(s) != ""
  {
    hide CsvText.IsSpace;
    if CsvText.IsSpace(s[|s| - 1]) {
      LastLeft(s[..|s| - 1]);
    }
  }

  // ------------------------------------------------------------ one request, start to end

  /** What an administrator's request leaves of the row, when nobody writes in between; none when it stops. */
  function Answered(o: OverrideStore.Row, request: OverrideStore.Request): Option<OverrideStore.Row> {
    match request
    case Approve(user) =>
      if user != o.given.authorId && o.approvedBy.None? && (o.status == OverrideStore.PENDING_APPROVAL || o.status == OverrideStore.ACTIVE)
      then Some(OverrideStore.Row(o.given, o.requiresSecondApproval, OverrideStore.ACTIVE, Some(user), o.rejectedBy, o.cancelledBy))
      else None
    case Reject(user) =>
      if user != o.given.authorId && o.status == OverrideStore.PENDING_APPROVAL
      then Some(OverrideStore.Row(o.given, o.requiresSecondApproval, OverrideStore.REJECTED, o.approvedBy, Some(user), o.cancelledBy))
      else None
    case Cancel(user) =>
      if o.status == OverrideStore.PENDING_APPROVAL || o.status == OverrideStore.ACTIVE
      then Some(OverrideStore.Row(o.given, o.requiresSecondApproval, OverrideStore.CANCELLED, o.approvedBy, o.rejectedBy, Some(user)))
      else None
  }

  /**
   * A request read and written without another write in between: it changes the row it names as asked, is logged
   * once, and changes nothing else; approvals and rejections by the author, and those that come too late, change nothing.
   */
  lemma UndisturbedRequest(w: OverrideStore.World, k: nat, request: OverrideStore.Request, id: string)
    requires OverrideStore.Sound(w) && k !in w.flights
    ensures var after := OverrideStore.RunFrom(w, [OverrideStore.Reads(k, request, id), OverrideStore.Writes(k)]);
            && after.flights == w.flights
            && if id in w.rows && Answered(w.rows[id], request).Some?
               then after.rows == w.rows[id := Answered(w.rows[id], request).value] && after.log == w.log + [OverrideStore.Won(request, id)]
               else after.rows == w.rows && after.log == w.log
  {
    TwoSteps(w, OverrideStore.Reads(k, request, id), OverrideStore.Writes(k));
    assert id in w.rows ==> OverrideStore.RowConstraints(w.rows[id]);
    hide OverrideStore.RunFrom, OverrideStore.Sound;
    FlightLands(w.flights, k, OverrideStore.ReadFor(w.rows, request, id));
    if id in w.rows {
      AnswersRow(w, k, request, id);
      hide OverrideStore.Wins, OverrideStore.Written, Answered, OverrideStore.ReadFor;
    }
  }

  lemma TwoSteps(w: OverrideStore.World, first: OverrideStore.Step, second: OverrideStore.Step)
    ensures OverrideStore.RunFrom(w, [first, second]) == OverrideStore.Next(OverrideStore.Next(w, first), second)
  {
    hide OverrideStore.Next;
    assert [first, second][..1] == [first] && [first][..0] == [];
    assert OverrideStore.RunFrom(w, []) == w;
    assert OverrideStore.RunFrom(w, [first]) == OverrideStore.Next(w, first);
  }

  lemma FlightLands(flights: map<nat, OverrideStore.Flight>, k: nat, f: Option<OverrideStore.Flight>)
    requires k !in flights
    ensures flights - {k} == flights && (f.Some? ==> flights[k := f.value] - {k} == flights)
  {
  }

  /** The guards before the write and its own condition, together. */
  lemma AnswersRow(w: OverrideStore.World, k: nat, request: OverrideStore.Request, id: string)
    requires id in w.rows && OverrideStore.RowConstraints(w.rows[id])
    ensures var f := OverrideStore.ReadFor(w.rows, request, id);
            && (Answered(w.rows[id], request).Some? <==> f.Some? && OverrideStore.Wins(w.rows, f.value))
            && (f.Some? ==> f.value.id == id && f.value.request == request)
            && (Answered(w.rows[id], request).Some? ==> OverrideStore.Written(w.rows[id], request) == Answered(w.rows[id], request).value)
  {
  }

  /** What a creation demands: something left of the reason once trimmed, two days in order, a readable price. */
  lemma CreatedExactlyWhen(w: OverrideStore.World, id: string, o: PriceOverride, computed: real, threshold: real)
    requires id !in w.rows
    ensures var after := OverrideStore.Next(w, OverrideStore.Creates(id, o, computed, threshold));
            && after.flights == w.flights && after.log == w.log
            && if CsvText.Trim(o.reason) != "" && ValidDay(o.validFrom) && ValidDay(o.validTo) && o.validFrom <= o.validTo
                  && ParseDecimal(o.unitPrice, 6, false).Ok?
               then
                 && id in after.rows && (forall other :: other != id ==> (other in after.rows <==> other in w.rows))
                 && (forall other :: other in w.rows ==> after.rows[other] == w.rows[other])
                 && var far := TooFar(ParseDecimal(o.unitPrice, 6, false).value, computed, threshold);
                    after.rows[id] == OverrideStore.Row(o.(approvedBy := None), far, if far then OverrideStore.PENDING_APPROVAL else OverrideStore.ACTIVE,
                                                        None, None, None)
               else after.rows == w.rows
  {
    BlankIsTrimmed(o.reason);
    hide Blank, CsvText.Trim, ParseDecimal, ValidDay, TooFar, GapPercent;
    if ParseDecimal(o.unitPrice, 6, false).Ok? {
      GapIsPercent(ParseDecimal(o.unitPrice, 6, false).value, computed, threshold);
    }
  }
}
