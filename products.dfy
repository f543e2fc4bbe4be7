/** Warehouse product records and their consolidation: parsing and rendering of a record
    line, expansion of records of unknown type, the pairwise glue of intersecting intervals,
    the per-group fold, duplicate removal and the output order. */
module Products {
  import opened Wrappers
  import opened Seqs
  import opened Text
  import Sorting

  /** Product types in declaration order; NULL marks a record whose type is unknown. */
  datatype ProductType = KGT | COLD | OTHER | NULL

  /** The numeric value of a product type (its position in the declaration). */
  function TypeIndex(t: ProductType): (i: nat)
    ensures i < 4
  {
    match t
    case KGT => 0
    case COLD => 1
    case OTHER => 2
    case NULL => 3
  }

  function TypeName(t: ProductType): string
  {
    match t
    case KGT => "KGT"
    case COLD => "COLD"
    case OTHER => "OTHER"
    case NULL => "NULL"
  }

  /** Case-insensitive parsing of a type name, with the white space around it ignored; a
      token that names no type leaves the default value, KGT, because the parse result is
      not checked. */
  function ParseType(token: string): (t: ProductType)
    ensures forall u :: EqualsIgnoreCase(Trim(token), TypeName(u)) ==> t == u
    ensures t != KGT ==> EqualsIgnoreCase(Trim(token), TypeName(t))
  {
    var up := ToUpperAscii(Trim(token));
    UpperTypeNames();
    if up == "COLD" then COLD
    else if up == "OTHER" then OTHER
    else if up == "NULL" then NULL
    else KGT
  }

  lemma UpperTypeNames()
    ensures forall u :: ToUpperAscii(TypeName(u)) == TypeName(u)
  {
    forall u ensures ToUpperAscii(TypeName(u)) == TypeName(u) {
      var n := TypeName(u);
      assert forall i :: 0 <= i < |n| ==> 'A' <= n[i] <= 'Z';
    }
  }

  /** Every type name parses back to its type. */
  lemma ParseTypeName(t: ProductType)
    ensures ParseType(TypeName(t)) == t
  {
    ParseTypePadded(t, "", "");
    assert "" + TypeName(t) + "" == TypeName(t);
  }

  /** White space around a type name does not change the type it names. */
  lemma ParseTypePadded(t: ProductType, pre: string, post: string)
    requires AllWhiteSpace(pre) && AllWhiteSpace(post)
    ensures ParseType(pre + TypeName(t) + post) == t
  {
    UpperTypeNames();
    TrimPadded(pre, TypeName(t), post);
  }

  // ---------------------------------------------------------------------------
  // Dates

  /** A calendar date; dates are compared by their day number, as date values compare by ticks. */
  datatype Date = Date(year: int, month: int, day: int)

  predicate IsLeapYear(y: int)
  {
    y % 4 == 0 && (y % 100 != 0 || y % 400 == 0)
  }

  function DaysInMonth(y: int, m: int): int
    requires 1 <= m <= 12
  {
    if m == 2 then (if IsLeapYear(y) then 29 else 28)
    else if m == 4 || m == 6 || m == 9 || m == 11 then 30
    else 31
  }

  /** A date the date type can hold: years 1 to 9999 of the proleptic Gregorian calendar. */
  predicate ValidDate(d: Date)
  {
    1 <= d.year <= 9999 && 1 <= d.month <= 12 && 1 <= d.day <= DaysInMonth(d.year, d.month)
  }

  function DaysBeforeMonth(y: int, m: int): int
    decreases m
  {
    if m <= 1 || m > 12 then 0 else DaysBeforeMonth(y, m - 1) + DaysInMonth(y, m - 1)
  }

  /** Days elapsed since 0001-01-01; a date's tick count is this number times TicksPerDay. */
  function DayNumber(d: Date): int
  {
    var p := d.year - 1;
    365 * p + p / 4 - p / 100 + p / 400 + DaysBeforeMonth(d.year, d.month) + d.day - 1
  }

  /** Within one month, day numbers are consecutive. */
  lemma SameMonthDayNumber(a: Date, b: Date)
    requires a.year == b.year && a.month == b.month
    ensures DayNumber(a) - DayNumber(b) == a.day - b.day
  {
  }

  /** The "yyyy-MM-dd" text of a date. */
  function DateToText(d: Date): (s: string)
    requires ValidDate(d)
    ensures |s| == 10
  {
    PadDigits(d.year, 4) + "-" + PadDigits(d.month, 2) + "-" + PadDigits(d.day, 2)
  }

  /** Exact parsing of "yyyy-MM-dd": four digits, a dash, two digits, a dash, two digits,
      naming a date of the calendar. */
  function ParseDate(s: string): (r: Option<Date>)
    ensures r.Some? ==> ValidDate(r.value)
  {
    if |s| == 10 && AllDigits(s[..4]) && s[4] == '-' && AllDigits(s[5..7]) && s[7] == '-' && AllDigits(s[8..])
    then
      var d := Date(DigitsValue(s[..4]), DigitsValue(s[5..7]), DigitsValue(s[8..]));
      if ValidDate(d) then Some(d) else None
    else None
  }

  /** Parsing gives back every rendered date. */
  lemma DateTextRoundTrip(d: Date)
    requires ValidDate(d)
    ensures ParseDate(DateToText(d)) == Some(d)
  {
    var y, m, dd := PadDigits(d.year, 4), PadDigits(d.month, 2), PadDigits(d.day, 2);
    var s := DateToText(d);
    assert s[..4] == y && s[5..7] == m && s[8..] == dd;
    PadDigitsValue(d.year, 4);
    PadDigitsValue(d.month, 2);
    PadDigitsValue(d.day, 2);
  }

  // ---------------------------------------------------------------------------
  // Records, their text form and their parser

  /** One record: a warehouse, a product type and the closed interval of dates
      [intervalStart, intervalEnd]. Records are values: merging builds new ones. */
  datatype ProductInfo = ProductInfo(warehouseId: int, productType: ProductType, intervalStart: Date, intervalEnd: Date)

  /** A record the source's field types can hold: a 32-bit warehouse id and two calendar dates. */
  predicate Representable(p: ProductInfo)
  {
    InInt32(p.warehouseId) && ValidDate(p.intervalStart) && ValidDate(p.intervalEnd)
  }

  /** The text form "warehouse,yyyy-MM-dd yyyy-MM-dd,TYPE". */
  function Render(p: ProductInfo): (s: string)
    requires Representable(p)
  {
    IntToText(p.warehouseId) + "," + DateToText(p.intervalStart) + " " + DateToText(p.intervalEnd) + "," + TypeName(p.productType)
  }

  datatype ParseError =
    | MalformedWarehouse  // the first field is not a 32-bit integer
    | MissingField        // fewer than three fields, so a date field does not exist
    | MalformedDate       // a date field is not "yyyy-MM-dd" naming a calendar date

  const FieldSeparators: set<char> := {',', ' '}

  /** Parsing of a record line. The line is split on commas and spaces; the first field is
      the warehouse, the second and third the dates, and the LAST field the type. The fields
      are read in that order, so the first failing one decides the error. */
  function FromString(str: string): (r: Result<ProductInfo, ParseError>)
    ensures r.Success? ==> Representable(r.value)
    ensures ParseInt32(SplitOn(str, FieldSeparators)[0]).None? ==> r == Failure(MalformedWarehouse)
    ensures r.Success? ==> r.value.productType == ParseType(SplitOn(str, FieldSeparators)[|SplitOn(str, FieldSeparators)| - 1])
  {
    var fields := SplitOn(str, FieldSeparators);
    match ParseInt32(fields[0])
    case None => Failure(MalformedWarehouse)
    case Some(w) =>
      var t := ParseType(fields[|fields| - 1]);
      if |fields| < 2 then Failure(MissingField)
      else match ParseDate(fields[1])
        case None => Failure(MalformedDate)
        case Some(start) =>
          if |fields| < 3 then Failure(MissingField)
          else match ParseDate(fields[2])
            case None => Failure(MalformedDate)
            case Some(end) => Success(ProductInfo(w, t, start, end))
  }

  lemma NoSeparatorInNumber(n: int)
    ensures NoneOf(IntToText(n), FieldSeparators)
  {
    var s := IntToText(n);
    if n < 0 {
      assert forall i :: 1 <= i < |s| ==> s[i] == NatToText(-n)[i - 1];
    }
  }

  /** A well-formed line whose last field is any token without separators parses to the
      record with the type that token names, KGT when it names none. */
  lemma {:induction false} ParseLine(p: ProductInfo, token: string)
    requires Representable(p)
    requires NoneOf(token, FieldSeparators)
    ensures FromString(IntToText(p.warehouseId) + "," + DateToText(p.intervalStart) + " " + DateToText(p.intervalEnd) + "," + token)
         == Success(p.(productType := ParseType(token)))
  {
    var a, b, c := IntToText(p.warehouseId), DateToText(p.intervalStart), DateToText(p.intervalEnd);
    var line := a + "," + b + " " + c + "," + token;
    assert line == a + [','] + (b + [' '] + (c + [','] + token));
    SplitConcat(a, ',', b + [' '] + (c + [','] + token), FieldSeparators);
    SplitConcat(b, ' ', c + [','] + token, FieldSeparators);
    SplitConcat(c, ',', token, FieldSeparators);
    NoSeparatorInNumber(p.warehouseId);
    SplitNoSeparator(a, FieldSeparators);
    SplitNoSeparator(b, FieldSeparators);
    SplitNoSeparator(c, FieldSeparators);
    SplitNoSeparator(token, FieldSeparators);
    assert SplitOn(line, FieldSeparators) == [a, b, c, token];
    IntTextRoundTrip(p.warehouseId);
    DateTextRoundTrip(p.intervalStart);
    DateTextRoundTrip(p.intervalEnd);
  }

  /** Parsing inverts rendering. */
  lemma RenderRoundTrip(p: ProductInfo)
    requires Representable(p)
    ensures FromString(Render(p)) == Success(p)
  {
    ParseLine(p, TypeName(p.productType));
    ParseTypeName(p.productType);
  }

  // ---------------------------------------------------------------------------
  // Expansion of records of unknown type

  /** A record of unknown type stands for one record of each concrete type:
      COLD, KGT and OTHER, in that order; any other record stands for itself. */
  function ExpandNull(p: ProductInfo): (r: seq<ProductInfo>)
    ensures p.productType != NULL ==> r == [p]
    ensures p.productType == NULL ==> |r| == 3 && r[0].productType == COLD && r[1].productType == KGT && r[2].productType == OTHER
    ensures forall i :: 0 <= i < |r| ==>
      && r[i].productType != NULL
      && r[i].warehouseId == p.warehouseId
      && r[i].intervalStart == p.intervalStart
      && r[i].intervalEnd == p.intervalEnd
  {
    if p.productType != NULL then [p]
    else [p.(productType := COLD), p.(productType := KGT), p.(productType := OTHER)]
  }

  /** Number of records of unknown type. */
  function NullCount(infos: seq<ProductInfo>): (n: nat)
    ensures n <= |infos|
  {
    if |infos| == 0 then 0
    else NullCount(infos[..|infos| - 1]) + (if infos[|infos| - 1].productType == NULL then 1 else 0)
  }

  /** Every record expanded in input order; the result holds no record of unknown type, one
      record per known-type input and three per unknown-type input. */
  function ExpandedAll(infos: seq<ProductInfo>): (r: seq<ProductInfo>)
    ensures forall i :: 0 <= i < |r| ==> r[i].productType != NULL
    ensures |r| == (|infos| - NullCount(infos)) + 3 * NullCount(infos)
  {
    if |infos| == 0 then []
    else ExpandedAll(infos[..|infos| - 1]) + ExpandNull(infos[|infos| - 1])
  }

  /** Expansion works record by record, so it keeps the input order. */
  lemma {:induction false} ExpandedAllAppend(a: seq<ProductInfo>, b: seq<ProductInfo>)
    ensures ExpandedAll(a + b) == ExpandedAll(a) + ExpandedAll(b)
    decreases |b|
  {
    if |b| == 0 {
      assert a + b == a;
    } else {
      assert (a + b)[..|a + b| - 1] == a + b[..|b| - 1];
      ExpandedAllAppend(a, b[..|b| - 1]);
    }
  }

  /** Records of known type pass through expansion unchanged. */
  lemma {:induction false} ExpandedAllKnown(infos: seq<ProductInfo>)
    requires forall i :: 0 <= i < |infos| ==> infos[i].productType != NULL
    ensures ExpandedAll(infos) == infos
  {
    if |infos| > 0 {
      ExpandedAllKnown(infos[..|infos| - 1]);
    }
  }

  /** Expanding twice is expanding once. */
  lemma ExpandedAllIdempotent(infos: seq<ProductInfo>)
    ensures ExpandedAll(ExpandedAll(infos)) == ExpandedAll(infos)
  {
    ExpandedAllKnown(ExpandedAll(infos));
  }

  /** The list expansion: a fresh list to which every record's expansion is appended. */
  method ExpandAll(infos: seq<ProductInfo>) returns (r: seq<ProductInfo>)
    ensures r == ExpandedAll(infos)
  {
    r := [];
    for i := 0 to |infos|
      invariant r == ExpandedAll(infos[..i])
    {
      assert infos[..i + 1][..i] == infos[..i];
      if infos[i].productType == NULL {
        r := r + ExpandNull(infos[i]);
      } else {
        r := r + [infos[i]];
      }
    }
    assert infos[..|infos|] == infos;
  }

  // ---------------------------------------------------------------------------
  // Intervals and the pairwise glue

  function Start(p: ProductInfo): int { DayNumber(p.intervalStart) }
  function End(p: ProductInfo): int { DayNumber(p.intervalEnd) }

  /** The interval is not reversed. */
  predicate WellFormed(p: ProductInfo) { Start(p) <= End(p) }

  /** The date lies in the closed interval of `p`. Only a non-reversed interval holds a date,
      and then it holds both of its end points. */
  function IsInInterval(p: ProductInfo, date: Date): (r: bool)
    ensures r ==> WellFormed(p)
    ensures date == p.intervalStart || date == p.intervalEnd ==> (r <==> WellFormed(p))
  {
    Start(p) <= DayNumber(date) <= End(p)
  }

  /** Some end point of either interval lies in the other interval. */
  function IsIntervalIntersect(p: ProductInfo, q: ProductInfo): (r: bool)
    ensures WellFormed(p) && WellFormed(q) ==> (r <==> !(End(p) < Start(q) || End(q) < Start(p)))
  {
    IsInInterval(p, q.intervalStart) || IsInInterval(p, q.intervalEnd)
      || IsInInterval(q, p.intervalStart) || IsInInterval(q, p.intervalEnd)
  }

  lemma IntersectSymmetric(p: ProductInfo, q: ProductInfo)
    ensures IsIntervalIntersect(p, q) == IsIntervalIntersect(q, p)
  {
  }

  /** The interval of `outer` contains the interval of `inner`. */
  predicate Covers(outer: ProductInfo, inner: ProductInfo)
  {
    Start(outer) <= Start(inner) && End(inner) <= End(outer)
  }

  /** The earlier of two dates; the first one when they are equal. */
  function EarlierDate(a: Date, b: Date): Date
  {
    if DayNumber(b) < DayNumber(a) then b else a
  }

  /** The later of two dates; the first one when they are equal. */
  function LaterDate(a: Date, b: Date): Date
  {
    if DayNumber(b) > DayNumber(a) then b else a
  }

  /** Gluing two records: nothing unless they share warehouse and type and their intervals
      intersect; otherwise one record with the earlier start and the later end. */
  function TryUnite(p: ProductInfo, q: ProductInfo): (r: Option<ProductInfo>)
    ensures r.None? <==> p.warehouseId != q.warehouseId || p.productType != q.productType || !IsIntervalIntersect(p, q)
    ensures r.Some? ==>
      && r.value.warehouseId == p.warehouseId && r.value.productType == p.productType
      && Start(r.value) == (if Start(p) <= Start(q) then Start(p) else Start(q))
      && End(r.value) == (if End(p) >= End(q) then End(p) else End(q))
      && Covers(r.value, p) && Covers(r.value, q)
    ensures r.Some? ==>
      && (r.value.intervalStart == p.intervalStart || r.value.intervalStart == q.intervalStart)
      && (r.value.intervalEnd == p.intervalEnd || r.value.intervalEnd == q.intervalEnd)
  {
    if p.warehouseId != q.warehouseId || p.productType != q.productType then None
    else if !IsIntervalIntersect(p, q) then None
    else Some(ProductInfo(p.warehouseId, p.productType,
                          EarlierDate(p.intervalStart, q.intervalStart), LaterDate(p.intervalEnd, q.intervalEnd)))
  }

  /** Every day of a successful glue of two records lies in one of them. A reversed record
      covers no day, and it only ever glues onto a record that contains one of its end points,
      which the glue then gives back. */
  lemma TryUniteWithinUnion(p: ProductInfo, q: ProductInfo, d: int)
    requires TryUnite(p, q).Some?
    requires Start(TryUnite(p, q).value) <= d <= End(TryUnite(p, q).value)
    ensures Start(p) <= d <= End(p) || Start(q) <= d <= End(q)
  {
  }

  /** Gluing a record onto itself gives it back, whatever its interval; so skipping the glue
      of a record with the very same object, as the source does, changes no value. */
  lemma GlueStepSelf(p: ProductInfo)
    ensures GlueStep(p, p) == p
  {
  }

  // ---------------------------------------------------------------------------
  // The fold of one record over its group

  /** One step of the fold: glue when possible, otherwise keep the accumulated record. */
  function GlueStep(acc: ProductInfo, other: ProductInfo): ProductInfo
  {
    match TryUnite(acc, other)
    case Some(glued) => glued
    case None => acc
  }

  /** The record reached by folding `info` left to right over `group`. It keeps the warehouse
      and type of `info` and its interval contains that of `info`. */
  function GlueAll(info: ProductInfo, group: seq<ProductInfo>): (r: ProductInfo)
    ensures r.warehouseId == info.warehouseId && r.productType == info.productType
    ensures Covers(r, info)
    ensures Representable(info) && (forall k :: 0 <= k < |group| ==> Representable(group[k])) ==> Representable(r)
  {
    if |group| == 0 then info
    else GlueStep(GlueAll(info, group[..|group| - 1]), group[|group| - 1])
  }

  /** The folded record takes its start and its end from `info` or from members of `group`. */
  lemma {:induction false} GlueAllFromGroup(info: ProductInfo, group: seq<ProductInfo>)
    ensures GlueAll(info, group).intervalStart == info.intervalStart
      || exists k :: 0 <= k < |group| && GlueAll(info, group).intervalStart == group[k].intervalStart
    ensures GlueAll(info, group).intervalEnd == info.intervalEnd
      || exists k :: 0 <= k < |group| && GlueAll(info, group).intervalEnd == group[k].intervalEnd
  {
    if |group| > 0 {
      var init := group[..|group| - 1];
      GlueAllFromGroup(info, init);
      assert forall k :: 0 <= k < |init| ==> init[k] == group[k];
    }
  }

  /** Every day covered by the folded record is covered by `info` or by a member of `group`. */
  lemma {:induction false} GlueAllWithinUnion(info: ProductInfo, group: seq<ProductInfo>, d: int)
    requires Start(GlueAll(info, group)) <= d <= End(GlueAll(info, group))
    ensures (Start(info) <= d <= End(info)) || exists k :: 0 <= k < |group| && Start(group[k]) <= d <= End(group[k])
  {
    if |group| > 0 {
      var init := group[..|group| - 1];
      var last := group[|group| - 1];
      var acc := GlueAll(info, init);
      if TryUnite(acc, last).Some? {
        TryUniteWithinUnion(acc, last, d);
      }
      if Start(acc) <= d <= End(acc) {
        GlueAllWithinUnion(info, init, d);
        if !(Start(info) <= d <= End(info)) {
          var k :| 0 <= k < |init| && Start(init[k]) <= d <= End(init[k]);
          assert group[k] == init[k];
        }
      } else {
        assert Start(group[|group| - 1]) <= d <= End(group[|group| - 1]);
      }
    }
  }

  /** The group fold: starting from `info`, glue each member of the group in turn onto the
      record built so far. It always reports success. */
  method TryUniteWithGroup(info: ProductInfo, group: seq<ProductInfo>) returns (ok: bool, glued: ProductInfo)
    ensures ok
    ensures glued == GlueAll(info, group)
  {
    var thisInfo := info;
    for i := 0 to |group|
      invariant thisInfo == GlueAll(info, group[..i])
    {
      assert group[..i + 1][..i] == group[..i];
      match TryUnite(thisInfo, group[i])
      case Some(temp) => thisInfo := temp;
      case None =>
    }
    assert group[..|group|] == group;
    ok, glued := true, thisInfo;
  }

  // ---------------------------------------------------------------------------
  // Grouping, merging and duplicate removal

  /** The numeric key of a (warehouse, type) group: warehouse * 10 + type. */
  function GroupKey(p: ProductInfo): int
  {
    p.warehouseId * 10 + TypeIndex(p.productType)
  }

  /** Since a type's value is below 10, the key identifies the (warehouse, type) pair, so the
      dictionary built from the groups never meets a duplicate key. */
  lemma GroupKeyInjective(p: ProductInfo, q: ProductInfo)
    ensures GroupKey(p) == GroupKey(q) <==> (p.warehouseId == q.warehouseId && p.productType == q.productType)
  {
    if GroupKey(p) == GroupKey(q) {
      var a, b := TypeIndex(p.productType), TypeIndex(q.productType);
      assert (p.warehouseId - q.warehouseId) * 10 == b - a;
      assert p.warehouseId == q.warehouseId;
    }
  }

  /** The records of `infos` with the given warehouse and type, in input order. */
  function GroupOf(infos: seq<ProductInfo>, warehouseId: int, productType: ProductType): (g: seq<ProductInfo>)
    ensures forall x :: x in g <==> x in infos && x.warehouseId == warehouseId && x.productType == productType
  {
    if |infos| == 0 then []
    else
      var g := GroupOf(infos[..|infos| - 1], warehouseId, productType);
      var last := infos[|infos| - 1];
      if last.warehouseId == warehouseId && last.productType == productType then g + [last] else g
  }

  /** Grouping keeps input order and repeats: the group of a concatenation is the
      concatenation of the groups. */
  lemma {:induction false} GroupOfAppend(a: seq<ProductInfo>, b: seq<ProductInfo>, warehouseId: int, productType: ProductType)
    ensures GroupOf(a + b, warehouseId, productType) == GroupOf(a, warehouseId, productType) + GroupOf(b, warehouseId, productType)
    decreases |b|
  {
    if |b| == 0 {
      assert a + b == a;
    } else {
      assert (a + b)[..|a + b| - 1] == a + b[..|b| - 1];
      GroupOfAppend(a, b[..|b| - 1], warehouseId, productType);
    }
  }

  /** A single record forms the group when its warehouse and type match, and nothing otherwise. */
  lemma GroupOfOne(x: ProductInfo, warehouseId: int, productType: ProductType)
    ensures GroupOf([x], warehouseId, productType) == if x.warehouseId == warehouseId && x.productType == productType then [x] else []
  {
    assert [x][..0] == [];
  }

  /** The dictionary from group key to the group's records. */
  function GroupTable(infos: seq<ProductInfo>): (m: map<int, seq<ProductInfo>>)
    ensures forall p :: p in infos ==> GroupKey(p) in m && m[GroupKey(p)] == GroupOf(infos, p.warehouseId, p.productType)
  {
    assert forall p, q :: GroupKey(p) == GroupKey(q) ==> p.warehouseId == q.warehouseId && p.productType == q.productType by {
      forall p, q ensures GroupKey(p) == GroupKey(q) ==> p.warehouseId == q.warehouseId && p.productType == q.productType {
        GroupKeyInjective(p, q);
      }
    }
    map p | p in infos :: GroupKey(p) := GroupOf(infos, p.warehouseId, p.productType)
  }

  /** Every record folded over the group its key selects, in input order. */
  function GluedAll(infos: seq<ProductInfo>): (r: seq<ProductInfo>)
    ensures |r| == |infos|
    ensures forall i {:trigger r[i]} :: 0 <= i < |infos| ==> r[i] == GlueAll(infos[i], GroupOf(infos, infos[i].warehouseId, infos[i].productType))
  {
    var table := GroupTable(infos);
    seq(|infos|, i requires 0 <= i < |infos| => GlueAll(infos[i], table[GroupKey(infos[i])]))
  }

  /** The merge: each record folded over its group, then exact duplicates removed, keeping
      the first of each. The result is free of duplicates, no longer than the input, holds
      exactly the folded records and lists them in the order they first occur. */
  function UniteIntersects(infos: seq<ProductInfo>): (r: seq<ProductInfo>)
    ensures Distinct(r) && |r| <= |infos|
    ensures forall x :: x in r <==> x in GluedAll(infos)
    ensures forall i, j :: 0 <= i < j < |r| ==> FirstIndex(GluedAll(infos), r[i]) < FirstIndex(GluedAll(infos), r[j])
  {
    DedupFirstOccurrenceOrder(GluedAll(infos));
    Dedup(GluedAll(infos))
  }

  /** A day covered by an input record is covered by a merged record of the same group. */
  lemma {:induction false} MergedCoversInput(infos: seq<ProductInfo>, j: nat, d: int)
    requires j < |infos| && Start(infos[j]) <= d <= End(infos[j])
    ensures exists i :: 0 <= i < |UniteIntersects(infos)| && InGroupAt(UniteIntersects(infos)[i], infos[j].warehouseId, infos[j].productType, d)
  {
    var glued := GluedAll(infos);
    var r := Dedup(glued);
    assert glued[j] in glued;
    assert glued[j] in r;
    var i :| 0 <= i < |r| && r[i] == glued[j];
    assert UniteIntersects(infos) == r;
    assert InGroupAt(UniteIntersects(infos)[i], infos[j].warehouseId, infos[j].productType, d);
  }

  /** A day covered by the fold of the j-th record is covered by an input record of its group. */
  lemma {:induction false} GluedWithinInputs(infos: seq<ProductInfo>, j: nat, d: int)
    requires j < |infos|
    requires Start(GluedAll(infos)[j]) <= d <= End(GluedAll(infos)[j])
    ensures exists m :: 0 <= m < |infos| && InGroupAt(infos[m], infos[j].warehouseId, infos[j].productType, d)
  {
    var group := GroupOf(infos, infos[j].warehouseId, infos[j].productType);
    GlueAllWithinUnion(infos[j], group, d);
    if !(Start(infos[j]) <= d <= End(infos[j])) {
      var k :| 0 <= k < |group| && Start(group[k]) <= d <= End(group[k]);
      var x := group[k];
      assert x in group;
      var m := FirstIndex(infos, x);
      assert InGroupAt(infos[m], infos[j].warehouseId, infos[j].productType, d);
    } else {
      assert InGroupAt(infos[j], infos[j].warehouseId, infos[j].productType, d);
    }
  }

  /** A day covered by a merged record is covered by an input record of the same group. */
  lemma {:induction false} InputCoversMerged(infos: seq<ProductInfo>, i: nat, d: int)
    requires i < |UniteIntersects(infos)|
    requires Start(UniteIntersects(infos)[i]) <= d <= End(UniteIntersects(infos)[i])
    ensures exists j :: 0 <= j < |infos| && InGroupAt(infos[j], UniteIntersects(infos)[i].warehouseId, UniteIntersects(infos)[i].productType, d)
  {
    var glued := GluedAll(infos);
    var r := UniteIntersects(infos);
    assert r[i] in r;
    var j := FirstIndex(glued, r[i]);
    GluedWithinInputs(infos, j, d);
  }

  /** Covered days are preserved per (warehouse, type) group: a day lies in some merged record
      of the group exactly when it lies in some input record of the group. */
  lemma UniteIntersectsCoverage(infos: seq<ProductInfo>, w: int, t: ProductType, d: int)
    ensures (exists i :: 0 <= i < |UniteIntersects(infos)| && InGroupAt(UniteIntersects(infos)[i], w, t, d))
        <==> (exists j :: 0 <= j < |infos| && InGroupAt(infos[j], w, t, d))
  {
    if j :| 0 <= j < |infos| && InGroupAt(infos[j], w, t, d) {
      MergedCoversInput(infos, j, d);
    }
    if i :| 0 <= i < |UniteIntersects(infos)| && InGroupAt(UniteIntersects(infos)[i], w, t, d) {
      InputCoversMerged(infos, i, d);
    }
  }

  /** The record belongs to the (w, t) group and its interval contains day `d`. */
  predicate InGroupAt(p: ProductInfo, w: int, t: ProductType, d: int)
  {
    p.warehouseId == w && p.productType == t && Start(p) <= d <= End(p)
  }

  /** Every record of an expansion is representable when the input records are. */
  lemma {:induction false} ExpandedAllRepresentable(infos: seq<ProductInfo>)
    requires forall i :: 0 <= i < |infos| ==> Representable(infos[i])
    ensures forall i :: 0 <= i < |ExpandedAll(infos)| ==> Representable(ExpandedAll(infos)[i])
  {
    if |infos| > 0 {
      ExpandedAllRepresentable(infos[..|infos| - 1]);
    }
  }

  /** Every merged record is representable when the input records are: gluing only ever
      picks dates that occur in the input. */
  lemma UniteIntersectsRepresentable(infos: seq<ProductInfo>)
    requires forall i :: 0 <= i < |infos| ==> Representable(infos[i])
    ensures forall i :: 0 <= i < |UniteIntersects(infos)| ==> Representable(UniteIntersects(infos)[i])
  {
    var glued := GluedAll(infos);
    forall j | 0 <= j < |glued| ensures Representable(glued[j]) {
      var group := GroupOf(infos, infos[j].warehouseId, infos[j].productType);
      forall k | 0 <= k < |group| ensures Representable(group[k]) {
        var x := group[k];
        assert x in group;
        var m := FirstIndex(infos, x);
      }
    }
    var r := Dedup(glued);
    assert UniteIntersects(infos) == r;
    forall i | 0 <= i < |r| ensures Representable(r[i]) {
      assert r[i] in glued;
      var j := FirstIndex(glued, r[i]);
    }
  }

  /** Merging creates no new value: every merged record has the warehouse and type of some
      input record, its start is the start of some input record and its end the end of one. */
  lemma UniteIntersectsFromInputs(infos: seq<ProductInfo>)
    ensures forall i :: 0 <= i < |UniteIntersects(infos)| ==> exists j :: (0 <= j < |infos|
      && UniteIntersects(infos)[i].warehouseId == infos[j].warehouseId && UniteIntersects(infos)[i].productType == infos[j].productType)
    ensures forall i :: 0 <= i < |UniteIntersects(infos)| ==>
      exists j :: 0 <= j < |infos| && UniteIntersects(infos)[i].intervalStart == infos[j].intervalStart
    ensures forall i :: 0 <= i < |UniteIntersects(infos)| ==>
      exists j :: 0 <= j < |infos| && UniteIntersects(infos)[i].intervalEnd == infos[j].intervalEnd
  {
    var glued := GluedAll(infos);
    var r := UniteIntersects(infos);
    forall i | 0 <= i < |r|
      ensures exists j :: 0 <= j < |infos| && r[i].warehouseId == infos[j].warehouseId && r[i].productType == infos[j].productType
      ensures exists j :: 0 <= j < |infos| && r[i].intervalStart == infos[j].intervalStart
      ensures exists j :: 0 <= j < |infos| && r[i].intervalEnd == infos[j].intervalEnd
    {
      assert r[i] in r;
      var m := FirstIndex(glued, r[i]);
      var group := GroupOf(infos, infos[m].warehouseId, infos[m].productType);
      assert r[i] == GlueAll(infos[m], group);
      GlueAllFromGroup(infos[m], group);
      if r[i].intervalStart != infos[m].intervalStart {
        var k :| 0 <= k < |group| && r[i].intervalStart == group[k].intervalStart;
        assert group[k] in group;
        var j := FirstIndex(infos, group[k]);
      }
      if r[i].intervalEnd != infos[m].intervalEnd {
        var k :| 0 <= k < |group| && r[i].intervalEnd == group[k].intervalEnd;
        assert group[k] in group;
        var j := FirstIndex(infos, group[k]);
      }
    }
  }

  /** When all records share one warehouse and type, the whole input is the group. */
  lemma {:induction false} GroupOfWhole(infos: seq<ProductInfo>, warehouseId: int, productType: ProductType)
    requires forall i :: 0 <= i < |infos| ==> infos[i].warehouseId == warehouseId && infos[i].productType == productType
    ensures GroupOf(infos, warehouseId, productType) == infos
  {
    if |infos| > 0 {
      GroupOfWhole(infos[..|infos| - 1], warehouseId, productType);
      assert infos[..|infos| - 1] + [infos[|infos| - 1]] == infos;
    }
  }

  /** The three records of the one-pass example: days 0..2, 4..6 and 1..5 counted from `s`. */
  predicate OnePassInput(a: ProductInfo, b: ProductInfo, c: ProductInfo, s: int)
  {
    && a.warehouseId == b.warehouseId == c.warehouseId
    && a.productType == b.productType == c.productType
    && Start(a) == s && End(a) == s + 2
    && Start(b) == s + 4 && End(b) == s + 6
    && Start(c) == s + 1 && End(c) == s + 5
  }

  lemma OnePassFold(x: ProductInfo, infos: seq<ProductInfo>, afterA: ProductInfo, afterB: ProductInfo, afterC: ProductInfo)
    requires |infos| == 3
    requires GlueStep(x, infos[0]) == afterA
    requires GlueStep(afterA, infos[1]) == afterB
    requires GlueStep(afterB, infos[2]) == afterC
    ensures GlueAll(x, infos) == afterC
  {
    assert infos[..2][..1][..0] == [];
    assert GlueAll(x, infos[..2][..1]) == afterA;
    assert GlueAll(x, infos[..2]) == afterB;
  }

  lemma OnePassGlueSteps(a: ProductInfo, b: ProductInfo, c: ProductInfo, s: int)
    requires OnePassInput(a, b, c, s)
    ensures GlueStep(a, a) == a && GlueStep(a, b) == a && GlueStep(a, c) == a.(intervalEnd := c.intervalEnd)
    ensures GlueStep(b, a) == b && GlueStep(b, b) == b && GlueStep(b, c) == c.(intervalEnd := b.intervalEnd)
    ensures GlueStep(c, a) == a.(intervalEnd := c.intervalEnd)
    ensures GlueStep(a.(intervalEnd := c.intervalEnd), b) == a.(intervalEnd := b.intervalEnd)
    ensures GlueStep(a.(intervalEnd := b.intervalEnd), c) == a.(intervalEnd := b.intervalEnd)
  {
  }

  /** Within a single group, each record is folded over the whole input. */
  lemma GluedAllOneGroup(infos: seq<ProductInfo>, warehouseId: int, productType: ProductType)
    requires forall i :: 0 <= i < |infos| ==> infos[i].warehouseId == warehouseId && infos[i].productType == productType
    ensures |GluedAll(infos)| == |infos|
    ensures forall i :: 0 <= i < |infos| ==> GluedAll(infos)[i] == GlueAll(infos[i], infos)
  {
    GroupOfWhole(infos, warehouseId, productType);
  }

  lemma OnePassFolds(a: ProductInfo, b: ProductInfo, c: ProductInfo, s: int)
    requires OnePassInput(a, b, c, s)
    ensures GlueAll(a, [a, b, c]) == a.(intervalEnd := c.intervalEnd)
    ensures GlueAll(b, [a, b, c]) == c.(intervalEnd := b.intervalEnd)
    ensures GlueAll(c, [a, b, c]) == a.(intervalEnd := b.intervalEnd)
  {
    var infos := [a, b, c];
    var ab, bc, all := a.(intervalEnd := c.intervalEnd), c.(intervalEnd := b.intervalEnd), a.(intervalEnd := b.intervalEnd);
    OnePassGlueSteps(a, b, c, s);
    OnePassFold(a, infos, a, a, ab);
    OnePassFold(b, infos, b, b, bc);
    OnePassFold(c, infos, ab, all, all);
  }

  lemma OnePassGluedAll(a: ProductInfo, b: ProductInfo, c: ProductInfo, s: int)
    requires OnePassInput(a, b, c, s)
    ensures GluedAll([a, b, c]) == [
      a.(intervalEnd := c.intervalEnd),
      c.(intervalEnd := b.intervalEnd),
      a.(intervalEnd := b.intervalEnd)]
  {
    var infos := [a, b, c];
    OnePassFolds(a, b, c, s);
    GluedAllOneGroup(infos, a.warehouseId, a.productType);
    var glued := GluedAll(infos);
    assert glued[0] == GlueAll(infos[0], infos);
    assert glued[1] == GlueAll(infos[1], infos);
    assert glued[2] == GlueAll(infos[2], infos);
    ThreeElements(glued, a.(intervalEnd := c.intervalEnd), c.(intervalEnd := b.intervalEnd), a.(intervalEnd := b.intervalEnd));
  }

  /** The merge as written is one fold per record, not a repeated merge: for the group
      days 0..2, 4..6, 1..5 it yields 0..5, 1..6 and 0..6, which still overlap. */
  lemma OnePassMergeExample(a: ProductInfo, b: ProductInfo, c: ProductInfo, s: int)
    requires OnePassInput(a, b, c, s)
    ensures UniteIntersects([a, b, c]) == [
      a.(intervalEnd := c.intervalEnd),
      c.(intervalEnd := b.intervalEnd),
      a.(intervalEnd := b.intervalEnd)]
    ensures IsIntervalIntersect(UniteIntersects([a, b, c])[0], UniteIntersects([a, b, c])[1])
  {
    var ab, bc, all := a.(intervalEnd := c.intervalEnd), c.(intervalEnd := b.intervalEnd), a.(intervalEnd := b.intervalEnd);
    OnePassGluedAll(a, b, c, s);
    assert End(ab) != End(all) && Start(ab) != Start(bc) && Start(bc) != Start(all);
    DedupOfDistinctThree(ab, bc, all);
  }

  // ---------------------------------------------------------------------------
  // Output order

  /** Ticks in one day: a date difference in days times this is its tick count. */
  const TicksPerDay: int := 864_000_000_000

  /** The unchecked conversion of a 64-bit value to a 32-bit integer: the low 32 bits,
      read as a two's-complement number. */
  function TruncateToInt32(x: int): (r: int)
    ensures InInt32(r)
    ensures (x - r) % 0x1_0000_0000 == 0
  {
    var m := x % 0x1_0000_0000;
    if m > Int32Max then m - 0x1_0000_0000 else m
  }

  /** `a` comes strictly before `b` in the order intended for the output: by warehouse, then by
      type in declaration order, then by start date. */
  predicate KeyBefore(a: ProductInfo, b: ProductInfo)
  {
    || a.warehouseId < b.warehouseId
    || (a.warehouseId == b.warehouseId && TypeIndex(a.productType) < TypeIndex(b.productType))
    || (a.warehouseId == b.warehouseId && a.productType == b.productType && Start(a) < Start(b))
  }

  /** The sort comparison as written: differences of warehouse and of type, then the start
      difference in ticks converted to a 32-bit integer. */
  function CompareAsWritten(a: ProductInfo, b: ProductInfo): (r: int)
    ensures !(a.warehouseId == b.warehouseId && a.productType == b.productType) ==> (r < 0 <==> KeyBefore(a, b)) && r != 0
  {
    var warehouseIdDx := a.warehouseId - b.warehouseId;
    if warehouseIdDx != 0 then warehouseIdDx
    else
      var typeDx := TypeIndex(a.productType) - TypeIndex(b.productType);
      if typeDx != 0 then typeDx
      else TruncateToInt32((Start(a) - Start(b)) * TicksPerDay)
  }

  /** The conversion to 32 bits flips the sign of a four-day start difference: a record that
      starts four days later is ordered first. */
  lemma CompareAsWrittenMisorders(a: ProductInfo, b: ProductInfo)
    requires a.warehouseId == b.warehouseId && a.productType == b.productType
    requires Start(a) == Start(b) + 4
    ensures KeyBefore(b, a)
    ensures CompareAsWritten(a, b) < 0
  {
    assert (Start(a) - Start(b)) * TicksPerDay == 3_456_000_000_000;
  }

  /** The comparison as written is not even an order: starts on days 0, 4 and 8 form a cycle
      in which each record is ordered before the one four days earlier, yet the record of
      day 8 is ordered after the record of day 0. */
  lemma CompareAsWrittenCycle(a: ProductInfo, b: ProductInfo, c: ProductInfo)
    requires a.warehouseId == b.warehouseId == c.warehouseId
    requires a.productType == b.productType == c.productType
    requires Start(b) == Start(a) + 4 && Start(c) == Start(a) + 8
    ensures CompareAsWritten(c, b) < 0 && CompareAsWritten(b, a) < 0 && CompareAsWritten(a, c) < 0
  {
    assert (Start(c) - Start(b)) * TicksPerDay == 3_456_000_000_000;
    assert (Start(b) - Start(a)) * TicksPerDay == 3_456_000_000_000;
    assert (Start(a) - Start(c)) * TicksPerDay == -6_912_000_000_000;
  }

  /** The cycle on concrete records: starts 2020-01-01, 2020-01-05 and 2020-01-09. */
  lemma CompareAsWrittenCycleExample()
    ensures
      var a := ProductInfo(4, COLD, Date(2020, 1, 1), Date(2020, 2, 1));
      var b := ProductInfo(4, COLD, Date(2020, 1, 5), Date(2020, 2, 1));
      var c := ProductInfo(4, COLD, Date(2020, 1, 9), Date(2020, 2, 1));
      CompareAsWritten(c, b) < 0 && CompareAsWritten(b, a) < 0 && CompareAsWritten(a, c) < 0
  {
    var a := ProductInfo(4, COLD, Date(2020, 1, 1), Date(2020, 2, 1));
    var b := ProductInfo(4, COLD, Date(2020, 1, 5), Date(2020, 2, 1));
    var c := ProductInfo(4, COLD, Date(2020, 1, 9), Date(2020, 2, 1));
    SameMonthDayNumber(b.intervalStart, a.intervalStart);
    SameMonthDayNumber(c.intervalStart, a.intervalStart);
    CompareAsWrittenCycle(a, b, c);
  }

  /** The comparison as intended: the same warehouse and type steps, then the sign of the
      start difference. Negative exactly when `a` is before `b`, zero exactly when the keys agree. */
  function Compare(a: ProductInfo, b: ProductInfo): (r: int)
    ensures r < 0 <==> KeyBefore(a, b)
    ensures r == 0 <==> (a.warehouseId == b.warehouseId && a.productType == b.productType && Start(a) == Start(b))
    ensures r > 0 <==> KeyBefore(b, a)
  {
    var warehouseIdDx := a.warehouseId - b.warehouseId;
    if warehouseIdDx != 0 then warehouseIdDx
    else
      var typeDx := TypeIndex(a.productType) - TypeIndex(b.productType);
      if typeDx != 0 then typeDx
      else if Start(a) < Start(b) then -1
      else if Start(a) > Start(b) then 1
      else 0
  }

  /** `a` may come before `b` in the output. */
  predicate KeyLe(a: ProductInfo, b: ProductInfo)
  {
    Compare(a, b) <= 0
  }

  /** The intended comparison is a total preorder, so sorting by it is well defined. */
  lemma KeyLeIsTotalPreorder()
    ensures Sorting.IsTotalPreorder(KeyLe)
  {
    forall x, y, z | KeyLe(x, y) && KeyLe(y, z) ensures KeyLe(x, z) {
      assert !KeyBefore(y, x) && !KeyBefore(z, y);
    }
  }

  // ---------------------------------------------------------------------------
  // Output text

  const NewLine: char := '\n'

  /** The records rendered one per line, joined by line breaks. */
  function RenderAll(values: seq<ProductInfo>): string
    requires forall i :: 0 <= i < |values| ==> Representable(values[i])
  {
    Join(seq(|values|, i requires 0 <= i < |values| => Render(values[i])), [NewLine])
  }

  lemma RenderHasNoNewLine(p: ProductInfo)
    requires Representable(p)
    ensures NoneOf(Render(p), {NewLine})
  {
    var a, b, c, d := IntToText(p.warehouseId), DateToText(p.intervalStart), DateToText(p.intervalEnd), TypeName(p.productType);
    NoSeparatorInNumber(p.warehouseId);
    assert forall i :: 0 <= i < |a| ==> a[i] == '-' || IsDigit(a[i]) by {
      if p.warehouseId < 0 {
        assert forall i :: 1 <= i < |a| ==> a[i] == NatToText(-p.warehouseId)[i - 1];
      }
    }
    var line := a + "," + b + " " + c + "," + d;
    assert Render(p) == line;
    forall i | 0 <= i < |line| ensures line[i] != NewLine {
      if i < |a| {
        assert line[i] == a[i];
      }
    }
  }

  /** The output text splits into one line per record, and each line parses back to its record. */
  lemma RenderAllRoundTrip(values: seq<ProductInfo>)
    requires |values| >= 1
    requires forall i :: 0 <= i < |values| ==> Representable(values[i])
    ensures |SplitOn(RenderAll(values), {NewLine})| == |values|
    ensures forall i :: 0 <= i < |values| ==> FromString(SplitOn(RenderAll(values), {NewLine})[i]) == Success(values[i])
  {
    var lines := seq(|values|, i requires 0 <= i < |values| => Render(values[i]));
    forall i | 0 <= i < |lines| ensures NoneOf(lines[i], {NewLine}) {
      RenderHasNoNewLine(values[i]);
    }
    SplitJoin(lines, NewLine);
    forall i | 0 <= i < |values| ensures FromString(lines[i]) == Success(values[i]) {
      RenderRoundTrip(values[i]);
    }
  }

  // ---------------------------------------------------------------------------
  // The consolidated record list

  /** The consolidated records of one run: built from the parsed records by expansion and
      merging, then sorted for output. */
  class ProductInfos {
    var values: seq<ProductInfo>

    ghost predicate Valid()
      reads this
    {
      forall i :: 0 <= i < |values| ==> Representable(values[i])
    }

    constructor (infos: seq<ProductInfo>)
      requires forall i :: 0 <= i < |infos| ==> Representable(infos[i])
      ensures Valid()
      ensures values == UniteIntersects(ExpandedAll(infos))
    {
      var expanded := ExpandAll(infos);
      ExpandedAllRepresentable(infos);
      UniteIntersectsRepresentable(expanded);
      values := UniteIntersects(expanded);
    }

    /** Reorders the records by warehouse, type and start date (the intended comparison). */
    method Sort()
      requires Valid()
      modifies this
      ensures Valid()
      ensures Sorting.SortedBy(values, KeyLe)
      ensures multiset(values) == multiset(old(values))
    {
      KeyLeIsTotalPreorder();
      var sorted := Sorting.InsertionSort(values, KeyLe);
      forall i | 0 <= i < |sorted| ensures Representable(sorted[i]) {
        assert sorted[i] in multiset(values);
        var j := FirstIndex(values, sorted[i]);
      }
      values := sorted;
    }

    /** The output text: one rendered record per line. */
    function ToString(): (s: string)
      reads this
      requires Valid()
      ensures |values| >= 1 ==> |SplitOn(s, {NewLine})| == |values|
      ensures |values| >= 1 ==> forall i :: 0 <= i < |values| ==> FromString(SplitOn(s, {NewLine})[i]) == Success(values[i])
    {
      if |values| >= 1 then RenderAllRoundTrip(values); RenderAll(values)
      else RenderAll(values)
    }
  }
}
