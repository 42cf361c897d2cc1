/**
  server/models/Ship.js and server/models/Ship.ts: the ship catalogue.
  `findAll` turns optional filters into a conjunctive parameterised query;
  `formatShip` normalises the stored `images` and `specifications`.
*/
module Ships {
  import opened Base
  import opened Js
  import opened Sql
  import opened Store
  import opened Sorting
  import opened Errors

  // ---------------------------------------------------------------------
  // Filters and the query they build

  /** The filters `findAll` receives; `None` is `undefined` or `null`. */
  datatype Filters = Filters(kind: Option<string>, minDwt: Option<Num>, maxDwt: Option<Num>, port: Option<string>)

  function TextValue(o: Option<string>): JsValue
  {
    if o.None? then Undefined else Str(o.value)
  }

  function NumValue(o: Option<Num>): JsValue
  {
    if o.None? then Undefined else Number(o.value)
  }

  /** The filter's value where it is used (only when present). */
  function TextOr(o: Option<string>): string
  {
    if o.Some? then o.value else ""
  }

  function NumOr(o: Option<Num>): Num
  {
    if o.Some? then o.value else NaN
  }

  /** `if (filters.x)`: a filter is present when its value is truthy. */
  predicate HasText(o: Option<string>)
  {
    Truthy(TextValue(o))
  }

  predicate HasNum(o: Option<Num>)
  {
    Truthy(NumValue(o))
  }

  /** A value pushed on the `values` array. */
  datatype Param = PText(s: string) | PNumber(x: Num)

  /** The comparison a condition makes. */
  datatype Op = TypeEquals | DwtAtLeast | DwtAtMost | PortLike | PortEquals

  /** One `AND`-ed condition, naming its placeholder `$param`. */
  datatype Condition = Condition(op: Op, param: nat)

  datatype Query = Query(conditions: seq<Condition>, values: seq<Param>)

  /** The k-th condition uses `$k` and there is one value per condition. */
  predicate Numbered(cs: seq<Condition>, values: seq<Param>)
  {
    |cs| == |values| && forall i :: 0 <= i < |cs| ==> cs[i].param == i + 1
  }

  predicate WellNumbered(q: Query)
  {
    Numbered(q.conditions, q.values)
  }

  /** The JavaScript builder's state: the conditions so far, `values` and
      `paramCount`. */
  datatype JsBuilder = JsBuilder(conditions: seq<Condition>, values: seq<Param>, paramCount: nat)

  /** `paramCount++; query += ...$paramCount; values.push(v)`. */
  function JsAppend(b: JsBuilder, op: Op, v: Param): JsBuilder
  {
    var paramCount := b.paramCount + 1;
    JsBuilder(b.conditions + [Condition(op, paramCount)], b.values + [v], paramCount)
  }

  /** `if (present) { ... }` around one append. */
  function JsAppendIf(present: bool, b: JsBuilder, op: Op, v: Param): JsBuilder
  {
    if present then JsAppend(b, op, v) else b
  }

  /** `Ship.findAll` (JavaScript): type, minimum and maximum dwt, and a
      case-insensitive `%port%` pattern, each only when truthy. */
  function BuildQueryJs(f: Filters): Query
  {
    var b0 := JsBuilder([], [], 0);
    var b1 := JsAppendIf(HasText(f.kind), b0, TypeEquals, PText(TextOr(f.kind)));
    var b2 := JsAppendIf(HasNum(f.minDwt), b1, DwtAtLeast, PNumber(NumOr(f.minDwt)));
    var b3 := JsAppendIf(HasNum(f.maxDwt), b2, DwtAtMost, PNumber(NumOr(f.maxDwt)));
    var b4 := JsAppendIf(HasText(f.port), b3, PortLike, PText("%" + TextOr(f.port) + "%"));
    Query(b4.conditions, b4.values)
  }

  /** `conditions.push('... $' + (values.length + 1)); values.push(v)`. */
  function TsAppend(q: Query, op: Op, v: Param): Query
  {
    Query(q.conditions + [Condition(op, |q.values| + 1)], q.values + [v])
  }

  function TsAppendIf(present: bool, q: Query, op: Op, v: Param): Query
  {
    if present then TsAppend(q, op, v) else q
  }

  /** `Ship.findAll` (TypeScript): the same filters, but the port must be
      equal; no filters object at all means no condition. */
  function BuildQueryTs(filters: Option<Filters>): Query
  {
    var q0 := Query([], []);
    if filters.None? then q0
    else
      var f := filters.value;
      var q1 := TsAppendIf(HasText(f.kind), q0, TypeEquals, PText(TextOr(f.kind)));
      var q2 := TsAppendIf(HasNum(f.minDwt), q1, DwtAtLeast, PNumber(NumOr(f.minDwt)));
      var q3 := TsAppendIf(HasNum(f.maxDwt), q2, DwtAtMost, PNumber(NumOr(f.maxDwt)));
      TsAppendIf(HasText(f.port), q3, PortEquals, PText(TextOr(f.port)))
  }

  /** How many filters are present. */
  function PresentCount(f: Filters): nat
  {
    (if HasText(f.kind) then 1 else 0) + (if HasNum(f.minDwt) then 1 else 0)
    + (if HasNum(f.maxDwt) then 1 else 0) + (if HasText(f.port) then 1 else 0)
  }

  /** The JavaScript counter is the TypeScript `values.length + 1`. */
  lemma AppendIfAgree(present: bool, b: JsBuilder, op: Op, v: Param)
    requires b.paramCount == |b.values|
    ensures var b' := JsAppendIf(present, b, op, v);
      && b'.paramCount == |b'.values|
      && Query(b'.conditions, b'.values) == TsAppendIf(present, Query(b.conditions, b.values), op, v)
  {
  }

  /** The drafts build the same query but for the port condition: both
      extend the query for the other filters, the one with a `%port%`
      ILIKE pattern, the other with the bare port compared for equality. */
  lemma BuildersDifferOnlyInPort(f: Filters)
    ensures !HasText(f.port) ==> BuildQueryJs(f) == BuildQueryTs(Some(f))
    ensures HasText(f.port) ==>
      var others := BuildQueryTs(Some(f.(port := None)));
      && BuildQueryJs(f) == TsAppend(others, PortLike, PText("%" + f.port.value + "%"))
      && BuildQueryTs(Some(f)) == TsAppend(others, PortEquals, PText(f.port.value))
  {
    var b0 := JsBuilder([], [], 0);
    var b1 := JsAppendIf(HasText(f.kind), b0, TypeEquals, PText(TextOr(f.kind)));
    var b2 := JsAppendIf(HasNum(f.minDwt), b1, DwtAtLeast, PNumber(NumOr(f.minDwt)));
    var b3 := JsAppendIf(HasNum(f.maxDwt), b2, DwtAtMost, PNumber(NumOr(f.maxDwt)));
    AppendIfAgree(HasText(f.kind), b0, TypeEquals, PText(TextOr(f.kind)));
    AppendIfAgree(HasNum(f.minDwt), b1, DwtAtLeast, PNumber(NumOr(f.minDwt)));
    AppendIfAgree(HasNum(f.maxDwt), b2, DwtAtMost, PNumber(NumOr(f.maxDwt)));
    AppendIfAgree(HasText(f.port), b3, PortLike, PText("%" + TextOr(f.port) + "%"));
    assert Query(b3.conditions, b3.values) == BuildQueryTs(Some(f.(port := None)));
  }

  // ---------------------------------------------------------------------
  // The SQL text

  function OpText(op: Op): string
  {
    match op
    case TypeEquals => "type = $"
    case DwtAtLeast => "dwt >= $"
    case DwtAtMost => "dwt <= $"
    case PortLike => "current_port ILIKE $"
    case PortEquals => "current_port = $"
  }

  function CondText(c: Condition): string
  {
    OpText(c.op) + NatToDecimal(c.param)
  }

  function AndClauses(cs: seq<Condition>): string
  {
    if cs == [] then "" else " AND " + CondText(cs[0]) + AndClauses(cs[1..])
  }

  const SelectShips: string := "SELECT * FROM ships"

  /** The JavaScript draft's text: a `WHERE 1=1` prefix, one ` AND ...` per
      condition, newest first. */
  function SqlTextJs(q: Query): string
  {
    SelectShips + " WHERE 1=1" + AndClauses(q.conditions) + " ORDER BY created_at DESC"
  }

  /** The TypeScript draft's text: a WHERE clause only when some condition
      exists, and no ORDER BY. */
  function SqlTextTs(q: Query): string
  {
    SelectShips + (if q.conditions == [] then "" else " WHERE " + Join(Map(q.conditions, CondText), " AND "))
  }

  /** With no filter present the TypeScript query is the bare SELECT. */
  lemma NoFilterNoWhere(filters: Option<Filters>)
    ensures SqlTextTs(BuildQueryTs(filters)) == SelectShips
        <==> filters.None? || PresentCount(filters.value) == 0
  {
    var q := BuildQueryTs(filters);
    if filters.Some? {
      BuildTsMeaning(filters.value);
    }
    if q.conditions != [] {
      assert |SqlTextTs(q)| > |SelectShips|;
    }
  }

  // ---------------------------------------------------------------------
  // Running the query

  /** `text ILIKE pattern` for the patterns the builder makes, `%p%`: a
      case-insensitive substring test. Any other pattern is compared
      case-insensitively as a whole. */
  predicate ILike(text: string, pattern: string)
  {
    if |pattern| >= 2 && pattern[0] == '%' && pattern[|pattern| - 1] == '%'
    then Contains(ToLower(text), ToLower(pattern[1..|pattern| - 1]))
    else ToLower(text) == ToLower(pattern)
  }

  lemma ILikeSubstring(text: string, p: string)
    ensures ILike(text, "%" + p + "%") <==> Contains(ToLower(text), ToLower(p))
  {
    var pattern := "%" + p + "%";
    assert pattern[1..|pattern| - 1] == p;
  }

  /** The error binding a parameter raises, if any: a number must be a
      32-bit integer. */
  function ParamError(p: Param): Option<SqlError>
  {
    match p
    case PText(_) => None
    case PNumber(x) =>
      match RequiredInteger(Number(x))
      case Ok(_) => None
      case Err(e) => Some(e)
  }

  /** The first parameter that cannot be bound, in order. */
  function BindError(values: seq<Param>): Option<SqlError>
  {
    if values == [] then None
    else if ParamError(values[0]).Some? then ParamError(values[0])
    else BindError(values[1..])
  }

  /** A bound number is the integer itself. */
  lemma NumberParamBinds(x: Num)
    ensures ParamError(PNumber(x)).None? <==> x.Finite? && InInt4(x.n)
  {
    if x.Finite? {
      assert IntegerParam(Number(x)) == (if InInt4(x.n) then Ok(Some(x.n)) else Err(NumericValueOutOfRange));
    }
  }

  /** The comparison `op` of `row` against the bound value `v`. */
  predicate OpHolds(row: ShipRow, op: Op, v: Param)
  {
    match op
    case TypeEquals => v.PText? && ShipKindName(row.kind) == v.s
    case DwtAtLeast => v.PNumber? && v.x.Finite? && row.dwt >= v.x.n
    case DwtAtMost => v.PNumber? && v.x.Finite? && row.dwt <= v.x.n
    case PortLike => v.PText? && ILike(row.currentPort, v.s)
    case PortEquals => v.PText? && row.currentPort == v.s
  }

  /** Condition `c` holds of `row` with the statement's parameters. */
  predicate Holds(row: ShipRow, c: Condition, values: seq<Param>)
  {
    1 <= c.param <= |values| && OpHolds(row, c.op, values[c.param - 1])
  }

  predicate AllHold(row: ShipRow, cs: seq<Condition>, values: seq<Param>)
  {
    forall i :: 0 <= i < |cs| ==> Holds(row, cs[i], values)
  }

  /** `WHERE` over the table: the rows satisfying every condition, or the
      binding error. */
  function RunQuery(ships: seq<ShipRow>, q: Query): Result<seq<ShipRow>, SqlError>
  {
    match BindError(q.values)
    case Some(e) => Err(e)
    case None => Ok(Filter(ships, (row: ShipRow) => AllHold(row, q.conditions, q.values)))
  }

  // ---------------------------------------------------------------------
  // What the filters mean

  /** A row the JavaScript catalogue search should list: the type is the
      one asked for, the deadweight lies within the bounds, and the port
      contains the text asked for, ignoring case. */
  predicate SatisfiesJs(f: Filters, row: ShipRow)
  {
    && (HasText(f.kind) ==> ShipKindName(row.kind) == f.kind.value)
    && (HasNum(f.minDwt) ==> f.minDwt.value.Finite? && row.dwt >= f.minDwt.value.n)
    && (HasNum(f.maxDwt) ==> f.maxDwt.value.Finite? && row.dwt <= f.maxDwt.value.n)
    && (HasText(f.port) ==> Contains(ToLower(row.currentPort), ToLower(f.port.value)))
  }

  /** The TypeScript search: as above but the port must be the same text. */
  predicate SatisfiesTs(f: Filters, row: ShipRow)
  {
    && (HasText(f.kind) ==> ShipKindName(row.kind) == f.kind.value)
    && (HasNum(f.minDwt) ==> f.minDwt.value.Finite? && row.dwt >= f.minDwt.value.n)
    && (HasNum(f.maxDwt) ==> f.maxDwt.value.Finite? && row.dwt <= f.maxDwt.value.n)
    && (HasText(f.port) ==> row.currentPort == f.port.value)
  }

  /** The present dwt bounds are 32-bit integers, as the `INTEGER` column
      comparison requires of its parameters. */
  predicate BoundsFit(f: Filters)
  {
    && (HasNum(f.minDwt) ==> f.minDwt.value.Finite? && InInt4(f.minDwt.value.n))
    && (HasNum(f.maxDwt) ==> f.maxDwt.value.Finite? && InInt4(f.maxDwt.value.n))
  }

  lemma {:induction false} BindErrorAppend(values: seq<Param>, v: Param)
    ensures BindError(values + [v]).None? <==> BindError(values).None? && ParamError(v).None?
  {
    if values == [] {
      assert [] + [v] == [v];
    } else {
      assert (values + [v])[1..] == values[1..] + [v];
      BindErrorAppend(values[1..], v);
    }
  }

  lemma AllHoldAppend(row: ShipRow, cs: seq<Condition>, values: seq<Param>, op: Op, v: Param)
    requires Numbered(cs, values)
    ensures AllHold(row, cs + [Condition(op, |values| + 1)], values + [v])
        <==> (AllHold(row, cs, values) && OpHolds(row, op, v))
  {
    var cs' := cs + [Condition(op, |values| + 1)];
    var values' := values + [v];
    forall i | 0 <= i < |cs|
      ensures Holds(row, cs'[i], values') == Holds(row, cs[i], values)
    {
      assert cs'[i] == cs[i];
      assert values'[cs[i].param - 1] == values[cs[i].param - 1];
    }
    assert cs'[|cs|] == Condition(op, |values| + 1);
    assert values'[|values|] == v;
  }

  lemma NumberedAppend(cs: seq<Condition>, values: seq<Param>, op: Op, v: Param)
    requires Numbered(cs, values)
    ensures Numbered(cs + [Condition(op, |values| + 1)], values + [v])
  {
    var cs' := cs + [Condition(op, |values| + 1)];
    forall i | 0 <= i < |cs'|
      ensures cs'[i].param == i + 1
    {
      if i < |cs| {
        assert cs'[i] == cs[i];
      }
    }
  }

  /** Appending a condition on a fresh placeholder keeps the numbering,
      adds one conjunct, and adds one value to bind. */
  lemma AppendStep(cs: seq<Condition>, values: seq<Param>, op: Op, v: Param)
    requires Numbered(cs, values)
    ensures Numbered(cs + [Condition(op, |values| + 1)], values + [v])
    ensures forall row: ShipRow ::
      (AllHold(row, cs + [Condition(op, |values| + 1)], values + [v]) <==> AllHold(row, cs, values) && OpHolds(row, op, v))
    ensures BindError(values + [v]).None? <==> BindError(values).None? && ParamError(v).None?
  {
    forall row: ShipRow
      ensures AllHold(row, cs + [Condition(op, |values| + 1)], values + [v]) <==> AllHold(row, cs, values) && OpHolds(row, op, v)
    {
      AllHoldAppend(row, cs, values, op, v);
    }
    BindErrorAppend(values, v);
    NumberedAppend(cs, values, op, v);
  }

  /** One optional append of the JavaScript builder, whose counter tracks
      the number of values. */
  lemma JsAppendIfStep(present: bool, b: JsBuilder, op: Op, v: Param)
    requires Numbered(b.conditions, b.values) && b.paramCount == |b.values|
    ensures var b' := JsAppendIf(present, b, op, v);
      && Numbered(b'.conditions, b'.values) && b'.paramCount == |b'.values|
      && |b'.conditions| == |b.conditions| + (if present then 1 else 0)
      && (forall row: ShipRow ::
            (AllHold(row, b'.conditions, b'.values) <==> AllHold(row, b.conditions, b.values) && (present ==> OpHolds(row, op, v))))
      && (BindError(b'.values).None? <==> BindError(b.values).None? && (present ==> ParamError(v).None?))
  {
    if present {
      AppendStep(b.conditions, b.values, op, v);
    }
  }

  lemma TsAppendIfStep(present: bool, q: Query, op: Op, v: Param)
    requires WellNumbered(q)
    ensures var q' := TsAppendIf(present, q, op, v);
      && WellNumbered(q')
      && |q'.conditions| == |q.conditions| + (if present then 1 else 0)
      && (forall row: ShipRow ::
            (AllHold(row, q'.conditions, q'.values) <==> AllHold(row, q.conditions, q.values) && (present ==> OpHolds(row, op, v))))
      && (BindError(q'.values).None? <==> BindError(q.values).None? && (present ==> ParamError(v).None?))
  {
    if present {
      AppendStep(q.conditions, q.values, op, v);
    }
  }

  /** The conjuncts shared by both drafts, each as the comparison the query
      makes. */
  lemma SharedConjuncts(f: Filters, row: ShipRow)
    ensures OpHolds(row, TypeEquals, PText(TextOr(f.kind))) <==> ShipKindName(row.kind) == TextOr(f.kind)
    ensures HasNum(f.minDwt) ==> (OpHolds(row, DwtAtLeast, PNumber(NumOr(f.minDwt))) <==> f.minDwt.value.Finite? && row.dwt >= f.minDwt.value.n)
    ensures HasNum(f.maxDwt) ==> (OpHolds(row, DwtAtMost, PNumber(NumOr(f.maxDwt))) <==> f.maxDwt.value.Finite? && row.dwt <= f.maxDwt.value.n)
    ensures OpHolds(row, PortLike, PText("%" + TextOr(f.port) + "%"))
        <==> Contains(ToLower(row.currentPort), ToLower(TextOr(f.port)))
    ensures OpHolds(row, PortEquals, PText(TextOr(f.port))) <==> row.currentPort == TextOr(f.port)
  {
    ILikeSubstring(row.currentPort, TextOr(f.port));
  }

  lemma SharedBindings(f: Filters)
    ensures HasNum(f.minDwt) ==> (ParamError(PNumber(NumOr(f.minDwt))).None? <==> f.minDwt.value.Finite? && InInt4(f.minDwt.value.n))
    ensures HasNum(f.maxDwt) ==> (ParamError(PNumber(NumOr(f.maxDwt))).None? <==> f.maxDwt.value.Finite? && InInt4(f.maxDwt.value.n))
  {
    NumberParamBinds(NumOr(f.minDwt));
    NumberParamBinds(NumOr(f.maxDwt));
  }

  /** The JavaScript query: rows pass exactly when they satisfy the
      filters, and binding fails exactly when a bound does not fit. */
  lemma BuildJsMeaning(f: Filters)
    ensures WellNumbered(BuildQueryJs(f)) && |BuildQueryJs(f).conditions| == PresentCount(f)
    ensures forall row: ShipRow :: AllHold(row, BuildQueryJs(f).conditions, BuildQueryJs(f).values) <==> SatisfiesJs(f, row)
    ensures BindError(BuildQueryJs(f).values).None? <==> BoundsFit(f)
  {
    var b0 := JsBuilder([], [], 0);
    var b1 := JsAppendIf(HasText(f.kind), b0, TypeEquals, PText(TextOr(f.kind)));
    var b2 := JsAppendIf(HasNum(f.minDwt), b1, DwtAtLeast, PNumber(NumOr(f.minDwt)));
    var b3 := JsAppendIf(HasNum(f.maxDwt), b2, DwtAtMost, PNumber(NumOr(f.maxDwt)));
    var b4 := JsAppendIf(HasText(f.port), b3, PortLike, PText("%" + TextOr(f.port) + "%"));
    JsAppendIfStep(HasText(f.kind), b0, TypeEquals, PText(TextOr(f.kind)));
    JsAppendIfStep(HasNum(f.minDwt), b1, DwtAtLeast, PNumber(NumOr(f.minDwt)));
    JsAppendIfStep(HasNum(f.maxDwt), b2, DwtAtMost, PNumber(NumOr(f.maxDwt)));
    JsAppendIfStep(HasText(f.port), b3, PortLike, PText("%" + TextOr(f.port) + "%"));
    forall row: ShipRow
      ensures AllHold(row, b4.conditions, b4.values) <==> SatisfiesJs(f, row)
    {
      SharedConjuncts(f, row);
    }
    SharedBindings(f);
  }

  /** The TypeScript query, likewise with exact port equality. */
  lemma BuildTsMeaning(f: Filters)
    ensures WellNumbered(BuildQueryTs(Some(f))) && |BuildQueryTs(Some(f)).conditions| == PresentCount(f)
    ensures forall row: ShipRow ::
      AllHold(row, BuildQueryTs(Some(f)).conditions, BuildQueryTs(Some(f)).values) <==> SatisfiesTs(f, row)
    ensures BindError(BuildQueryTs(Some(f)).values).None? <==> BoundsFit(f)
  {
    var q0 := Query([], []);
    var q1 := TsAppendIf(HasText(f.kind), q0, TypeEquals, PText(TextOr(f.kind)));
    var q2 := TsAppendIf(HasNum(f.minDwt), q1, DwtAtLeast, PNumber(NumOr(f.minDwt)));
    var q3 := TsAppendIf(HasNum(f.maxDwt), q2, DwtAtMost, PNumber(NumOr(f.maxDwt)));
    var q4 := TsAppendIf(HasText(f.port), q3, PortEquals, PText(TextOr(f.port)));
    TsAppendIfStep(HasText(f.kind), q0, TypeEquals, PText(TextOr(f.kind)));
    TsAppendIfStep(HasNum(f.minDwt), q1, DwtAtLeast, PNumber(NumOr(f.minDwt)));
    TsAppendIfStep(HasNum(f.maxDwt), q2, DwtAtMost, PNumber(NumOr(f.maxDwt)));
    TsAppendIfStep(HasText(f.port), q3, PortEquals, PText(TextOr(f.port)));
    forall row: ShipRow
      ensures AllHold(row, q4.conditions, q4.values) <==> SatisfiesTs(f, row)
    {
      SharedConjuncts(f, row);
    }
    SharedBindings(f);
  }

  /** The query over the table returns exactly the rows satisfying the
      filters, in table order, or fails when a bound does not fit. */
  lemma QueryMeaningJs(ships: seq<ShipRow>, f: Filters)
    ensures RunQuery(ships, BuildQueryJs(f)).Ok? <==> BoundsFit(f)
    ensures BoundsFit(f) ==>
      RunQuery(ships, BuildQueryJs(f)).value == Filter(ships, (row: ShipRow) => SatisfiesJs(f, row))
  {
    BuildJsMeaning(f);
    var q := BuildQueryJs(f);
    FilterAgree(ships, (row: ShipRow) => AllHold(row, q.conditions, q.values), (row: ShipRow) => SatisfiesJs(f, row));
  }

  lemma QueryMeaningTs(ships: seq<ShipRow>, f: Filters)
    ensures RunQuery(ships, BuildQueryTs(Some(f))).Ok? <==> BoundsFit(f)
    ensures BoundsFit(f) ==>
      RunQuery(ships, BuildQueryTs(Some(f))).value == Filter(ships, (row: ShipRow) => SatisfiesTs(f, row))
    ensures RunQuery(ships, BuildQueryTs(None)) == Ok(ships)
  {
    BuildTsMeaning(f);
    var q := BuildQueryTs(Some(f));
    FilterAgree(ships, (row: ShipRow) => AllHold(row, q.conditions, q.values), (row: ShipRow) => SatisfiesTs(f, row));
    var none := BuildQueryTs(None);
    FilterAll(ships, (row: ShipRow) => AllHold(row, none.conditions, none.values));
  }

  // ---------------------------------------------------------------------
  // formatShip

  /** The shape `formatShip` returns. `images` is always an array;
      `position` keeps the decimal text of `lat` and `lng`. */
  datatype ShipView = ShipView(
    id: nat,
    name: string,
    kind: ShipKind,
    dwt: int,
    currentPort: string,
    nextAvailableDate: string,
    lat: string,
    lng: string,
    owner: string,
    images: seq<JsValue>,
    specifications: JsValue,
    ratePerDay: Option<int>,
    ownerId: Option<int>,
    createdAt: nat,
    updatedAt: nat)

  /** The `images` branch of `formatShip`: nothing when falsy; a string is
      parsed, and kept as the only image when it is not JSON; a non-array
      becomes a one-element array. */
  function NormaliseImages(json: JsonCodec, stored: JsValue): seq<JsValue>
  {
    if !Truthy(stored) then []
    else
      var parsed := if stored.Str? then json.parse(stored.s) else Some(stored);
      match parsed
      case None => [stored]
      case Some(images) => if images.Arr? then images.items else [images]
  }

  /** The `specifications` branch: `row.specifications || '{}'`, and a
      string is parsed, with `{}` when it is not JSON. */
  function NormaliseSpecifications(json: JsonCodec, stored: JsValue): JsValue
  {
    var specs := Or(stored, Str("{}"));
    if specs.Str? then
      match json.parse(specs.s)
      case None => Obj(map[])
      case Some(parsed) => parsed
    else specs
  }

  function FormatShip(json: JsonCodec, row: ShipRow): ShipView
  {
    ShipView(row.id, row.name, row.kind, row.dwt, row.currentPort, row.nextAvailableDate,
             row.lat, row.lng, row.owner,
             NormaliseImages(json, row.images), NormaliseSpecifications(json, row.specifications),
             row.ratePerDay, row.ownerId, row.createdAt, row.updatedAt)
  }

  /** `rows.map(formatShip)`. */
  function FormatAll(json: JsonCodec, rows: seq<ShipRow>): (r: seq<ShipView>)
    ensures |r| == |rows|
    ensures forall i :: 0 <= i < |rows| ==> r[i] == FormatShip(json, rows[i])
  {
    Map(rows, (row: ShipRow) => FormatShip(json, row))
  }

  /** A stored array is returned as is; a missing or empty value gives no
      images; a string that is not JSON becomes the only image; any other
      value becomes a one-element array. */
  lemma ImagesNormalised(json: JsonCodec, stored: JsValue)
    ensures stored.Arr? ==> NormaliseImages(json, stored) == stored.items
    ensures !Truthy(stored) ==> NormaliseImages(json, stored) == []
    ensures stored.Str? && stored.s != "" && json.parse(stored.s).None? ==> NormaliseImages(json, stored) == [stored]
    ensures Truthy(stored) && !stored.Str? && !stored.Arr? ==> NormaliseImages(json, stored) == [stored]
  {
  }

  /** Specifications default to the empty object and an object is kept. */
  lemma SpecificationsNormalised(json: JsonCodec, stored: JsValue)
    requires Lawful(json)
    ensures !Truthy(stored) ==> NormaliseSpecifications(json, stored) == Obj(map[])
    ensures stored.Obj? ==> NormaliseSpecifications(json, stored) == stored
    ensures stored.Str? && json.parse(stored.s).None? ==> NormaliseSpecifications(json, stored) == Obj(map[])
  {
  }

  /** Normalising twice changes nothing more: an array of images is read
      back as the same images. */
  lemma NormaliseImagesIdempotent(json: JsonCodec, stored: JsValue)
    ensures NormaliseImages(json, Arr(NormaliseImages(json, stored))) == NormaliseImages(json, stored)
  {
  }

  // ---------------------------------------------------------------------
  // Reads

  /** `ORDER BY created_at DESC`. */
  function NewestFirst(rows: seq<ShipRow>): (r: seq<ShipRow>)
    ensures SortedDesc(r, (row: ShipRow) => row.createdAt)
    ensures multiset(r) == multiset(rows)
    ensures |r| == |rows|
  {
    SortDesc(rows, (row: ShipRow) => row.createdAt)
  }

  /** `Ship.findAll` (JavaScript): the filtered rows, newest first,
      formatted. */
  function FindAllJs(db: Db, json: JsonCodec, f: Filters): Result<seq<ShipView>, Thrown>
  {
    if !db.online then Err(StoreDown)
    else
      match RunQuery(db.ships, BuildQueryJs(f))
      case Err(e) => Err(Database(e))
      case Ok(rows) => Ok(FormatAll(json, NewestFirst(rows)))
  }

  /** `Ship.findAll` (TypeScript): the filtered rows as stored, in no
      particular order (table order here). */
  function FindAllTs(db: Db, filters: Option<Filters>): Result<seq<ShipRow>, Thrown>
  {
    if !db.online then Err(StoreDown)
    else
      match RunQuery(db.ships, BuildQueryTs(filters))
      case Err(e) => Err(Database(e))
      case Ok(rows) => Ok(rows)
  }

  /** The JavaScript catalogue lists, newest first, the formatted ships
      satisfying the filters, and only those; it fails exactly when the
      store is down or a dwt bound is not a 32-bit integer. */
  lemma FindAllJsMeaning(db: Db, json: JsonCodec, f: Filters)
    ensures FindAllJs(db, json, f).Ok? <==> db.online && BoundsFit(f)
    ensures FindAllJs(db, json, f).Ok? ==>
      var views := FindAllJs(db, json, f).value;
      var rows := NewestFirst(Filter(db.ships, (row: ShipRow) => SatisfiesJs(f, row)));
      && views == FormatAll(json, rows)
      && multiset(rows) == multiset(Filter(db.ships, (row: ShipRow) => SatisfiesJs(f, row)))
      && (forall i, j :: 0 <= i < j < |views| ==> views[i].createdAt >= views[j].createdAt)
  {
    QueryMeaningJs(db.ships, f);
    if db.online && BoundsFit(f) {
      var rows := NewestFirst(Filter(db.ships, (row: ShipRow) => SatisfiesJs(f, row)));
      var views := FindAllJs(db, json, f).value;
      assert forall i :: 0 <= i < |views| ==> views[i].createdAt == rows[i].createdAt;
    }
  }

  /** The TypeScript catalogue: exactly the stored ships satisfying the
      filters; with no filters object, every ship. */
  lemma FindAllTsMeaning(db: Db, f: Filters)
    ensures FindAllTs(db, Some(f)).Ok? <==> db.online && BoundsFit(f)
    ensures FindAllTs(db, Some(f)).Ok? ==>
      FindAllTs(db, Some(f)).value == Filter(db.ships, (row: ShipRow) => SatisfiesTs(f, row))
    ensures db.online ==> FindAllTs(db, None) == Ok(db.ships)
  {
    QueryMeaningTs(db.ships, f);
  }

  /** `Ship.findById(req.params.id)` (JavaScript): the path text is the
      parameter, so a text that is not an integer is a database error. */
  function FindByIdJs(db: Db, json: JsonCodec, id: string): Result<Option<ShipView>, Thrown>
  {
    if !db.online then Err(StoreDown)
    else
      match Int4(id)
      case Err(e) => Err(Database(e))
      case Ok(n) =>
        match FindShip(db.ships, n)
        case None => Ok(None)
        case Some(row) => Ok(Some(FormatShip(json, row)))
  }

  /** `Ship.findById(Number(req.params.id))` (TypeScript): the raw row or
      `null`. */
  function FindByIdTs(db: Db, id: Num): Result<Option<ShipRow>, Thrown>
  {
    if !db.online then Err(StoreDown)
    else
      match RequiredInteger(Number(id))
      case Err(e) => Err(Database(e))
      case Ok(n) => Ok(FindShip(db.ships, n))
  }

  /** Both drafts find the same ship for the decimal text of an id, and
      the JavaScript one returns it formatted. */
  lemma FindByIdAgree(db: Db, json: JsonCodec, n: int)
    requires db.online
    ensures FindByIdJs(db, json, IntToDecimal(n)).Ok? <==> InInt4(n)
    ensures FindByIdTs(db, ToNumber(IntToDecimal(n))).Ok? <==> InInt4(n)
    ensures InInt4(n) ==>
      var ts := FindByIdTs(db, ToNumber(IntToDecimal(n))).value;
      var js := FindByIdJs(db, json, IntToDecimal(n)).value;
      && ts == FindShip(db.ships, n)
      && js.Some? == ts.Some?
      && (ts.Some? ==> js.value == FormatShip(json, ts.value))
  {
    Int4Decimal(n);
    ToNumberDecimal(n);
  }

  predicate OwnedBy(ownerId: int, row: ShipRow)
  {
    row.ownerId == Some(ownerId)
  }

  /** `WHERE owner_id = $1`. */
  function OwnedRows(ships: seq<ShipRow>, ownerId: int): seq<ShipRow>
  {
    Filter(ships, (row: ShipRow) => OwnedBy(ownerId, row))
  }

  /** `Ship.findByOwnerId` (JavaScript): the owner's ships, newest first. */
  function FindByOwnerIdJs(db: Db, json: JsonCodec, ownerId: int): Result<seq<ShipView>, Thrown>
  {
    if !db.online then Err(StoreDown)
    else
      match RequiredInteger(Number(Finite(ownerId)))
      case Err(e) => Err(Database(e))
      case Ok(n) =>
        Ok(FormatAll(json, NewestFirst(OwnedRows(db.ships, n))))
  }

  /** `Ship.findByOwnerId` (TypeScript): the owner's rows, unordered. */
  function FindByOwnerIdTs(db: Db, ownerId: int): Result<seq<ShipRow>, Thrown>
  {
    if !db.online then Err(StoreDown)
    else
      match RequiredInteger(Number(Finite(ownerId)))
      case Err(e) => Err(Database(e))
      case Ok(n) => Ok(OwnedRows(db.ships, n))
  }

  /** The TypeScript draft lists exactly the ships whose `owner_id` is
      the owner. */
  lemma FindByOwnerIdTsMeaning(db: Db, ownerId: int)
    requires db.online && InInt4(ownerId)
    ensures FindByOwnerIdTs(db, ownerId).Ok?
    ensures var rows := FindByOwnerIdTs(db, ownerId).value;
      && (forall i :: 0 <= i < |rows| ==> rows[i] in db.ships && rows[i].ownerId == Some(ownerId))
      && (forall i :: 0 <= i < |db.ships| && db.ships[i].ownerId == Some(ownerId) ==> db.ships[i] in rows)
  {
    assert IntegerParam(Number(Finite(ownerId))) == Ok(Some(ownerId));
  }

  /** The JavaScript draft lists the same ships, formatted and newest
      first. */
  lemma FindByOwnerIdJsMeaning(db: Db, json: JsonCodec, ownerId: int)
    requires db.online && InInt4(ownerId)
    ensures FindByOwnerIdTs(db, ownerId).Ok? && FindByOwnerIdJs(db, json, ownerId).Ok?
    ensures var views := FindByOwnerIdJs(db, json, ownerId).value;
      && |views| == |FindByOwnerIdTs(db, ownerId).value|
      && (forall i :: 0 <= i < |views| ==> views[i].ownerId == Some(ownerId))
      && (forall i, j :: 0 <= i < j < |views| ==> views[i].createdAt >= views[j].createdAt)
  {
    assert IntegerParam(Number(Finite(ownerId))) == Ok(Some(ownerId));
    var rows := OwnedRows(db.ships, ownerId);
    assert FindByOwnerIdJs(db, json, ownerId) == Ok(FormatAll(json, NewestFirst(rows)));
    NewestOwned(json, rows, ownerId);
  }

  /** Sorting and formatting owned rows keeps them owned and orders them
      newest first. */
  lemma NewestOwned(json: JsonCodec, rows: seq<ShipRow>, ownerId: int)
    requires forall i :: 0 <= i < |rows| ==> rows[i].ownerId == Some(ownerId)
    ensures var views := FormatAll(json, NewestFirst(rows));
      && |views| == |rows|
      && (forall i :: 0 <= i < |views| ==> views[i].ownerId == Some(ownerId))
      && (forall i, j :: 0 <= i < j < |views| ==> views[i].createdAt >= views[j].createdAt)
  {
    var sorted := NewestFirst(rows);
    forall i | 0 <= i < |sorted|
      ensures sorted[i].ownerId == Some(ownerId)
    {
      assert sorted[i] in multiset(rows);
    }
  }

  // ---------------------------------------------------------------------
  // Creating a ship

  /** The parameters of the ships INSERT, as the driver receives them.
      `None` for `images` or `specifications` means the column is left out
      of the statement and takes its default; `rate_per_day` left out is
      the same as NULL. */
  datatype ShipParams = ShipParams(
    name: JsValue,
    kind: JsValue,
    dwt: JsValue,
    currentPort: JsValue,
    nextAvailableDate: JsValue,
    lat: JsValue,
    lng: JsValue,
    owner: JsValue,
    images: Option<JsValue>,
    specifications: Option<JsValue>,
    ratePerDay: JsValue,
    ownerId: JsValue)

  /** `images JSONB DEFAULT '[]'` and `specifications JSONB DEFAULT '{}'`. */
  const DefaultImages: JsValue := Arr([])
  const DefaultSpecifications: JsValue := Obj(map[])

  /** `JSON.stringify(v)` as a parameter: `undefined` becomes NULL. */
  function Stringified(json: JsonCodec, v: JsValue): JsValue
  {
    match json.stringify(v)
    case None => Undefined
    case Some(t) => Str(t)
  }

  function JsonbColumn(json: JsonCodec, p: Option<JsValue>, default: JsValue): Result<JsValue, SqlError>
  {
    match p
    case None => Ok(default)
    case Some(v) => JsonbParam(json, v)
  }

  /** `CHECK (type IN (...))`. */
  function CheckedKind(name: string): (r: Result<ShipKind, SqlError>)
    ensures r.Ok? <==> ShipKindOf(name).Some?
    ensures r.Ok? ==> ShipKindName(r.value) == name
    ensures r.Err? ==> r.error == CheckViolation
  {
    match ShipKindOf(name)
    case None => Err(CheckViolation)
    case Some(k) => Ok(k)
  }

  predicate Nullish(v: JsValue)
  {
    v.Undefined? || v.Null?
  }

  /** The row `INSERT INTO ships ... RETURNING *` stores: the parameters
      are converted in order, then the NOT NULL columns are checked in
      column order, then the type CHECK, then the owner foreign key. */
  function InsertedShip(db: Db, json: JsonCodec, p: ShipParams): (r: Result<ShipRow, SqlError>)
    ensures r.Ok? ==> r.value.id == db.next.ships && r.value.createdAt == db.clock + 1 && r.value.updatedAt == db.clock + 1
    ensures r.Ok? ==>
      && !Nullish(p.name) && !Nullish(p.kind) && !Nullish(p.dwt) && !Nullish(p.currentPort)
      && !Nullish(p.nextAvailableDate) && !Nullish(p.lat) && !Nullish(p.lng) && !Nullish(p.owner)
    ensures r.Ok? ==> Some(ShipKindName(r.value.kind)) == TextParam(json, p.kind)
    ensures r.Ok? ==> IntegerParam(p.dwt) == Ok(Some(r.value.dwt)) && IntegerParam(p.ownerId) == Ok(r.value.ownerId)
    ensures r.Ok? ==> IntegerParam(p.ratePerDay) == Ok(r.value.ratePerDay)
    ensures r.Ok? ==> JsonbColumn(json, p.images, DefaultImages) == Ok(r.value.images)
    ensures r.Ok? ==> JsonbColumn(json, p.specifications, DefaultSpecifications) == Ok(r.value.specifications)
    ensures r.Ok? && r.value.ownerId.Some? ==> FindUser(db.users, r.value.ownerId.value).Some?
    ensures Nullish(p.name) || Nullish(p.kind) || Nullish(p.currentPort) || Nullish(p.owner) ==> r.Err?
  {
    var dwt :- IntegerParam(p.dwt);
    var images :- JsonbColumn(json, p.images, DefaultImages);
    var specifications :- JsonbColumn(json, p.specifications, DefaultSpecifications);
    var ratePerDay :- IntegerParam(p.ratePerDay);
    var ownerId :- IntegerParam(p.ownerId);
    var name :- Required(TextParam(json, p.name));
    var kindName :- Required(TextParam(json, p.kind));
    var dwtValue :- Required(dwt);
    var currentPort :- Required(TextParam(json, p.currentPort));
    var nextAvailableDate :- Required(TextParam(json, p.nextAvailableDate));
    var lat :- Required(TextParam(json, p.lat));
    var lng :- Required(TextParam(json, p.lng));
    var owner :- Required(TextParam(json, p.owner));
    var kind :- CheckedKind(kindName);
    if ownerId.Some? && FindUser(db.users, ownerId.value).None? then Err(ForeignKeyViolation)
    else
      Ok(ShipRow(db.next.ships, name, kind, dwtValue, currentPort, nextAvailableDate, lat, lng, owner,
                 images, specifications, ratePerDay, ownerId, db.clock + 1, db.clock + 1))
  }

  /** The store after appending `row` with the next id at the next tick. */
  function WithShip(db: Db, row: ShipRow): Db
  {
    db.(ships := db.ships + [row], next := db.next.(ships := db.next.ships + 1), clock := db.clock + 1)
  }

  /** `Ship.create` (JavaScript): camelCase keys, `images` and
      `specifications` sent as `JSON.stringify` text, the result
      formatted. */
  function ParamsJs(json: JsonCodec, data: map<string, JsValue>): ShipParams
  {
    ShipParams(Get(data, "name"), Get(data, "type"), Get(data, "dwt"), Get(data, "currentPort"),
               Get(data, "nextAvailableDate"), Get(data, "lat"), Get(data, "lng"), Get(data, "owner"),
               Some(Stringified(json, Get(data, "images"))), Some(Stringified(json, Get(data, "specifications"))),
               Get(data, "ratePerDay"), Get(data, "ownerId"))
  }

  function CreateJs(db: Db, json: JsonCodec, data: map<string, JsValue>): (r: Result<(Db, ShipView), Thrown>)
    ensures r.Ok? <==> db.online && InsertedShip(db, json, ParamsJs(json, data)).Ok?
    ensures r.Ok? ==>
      var (db', created) := r.value;
      && |db'.ships| == |db.ships| + 1
      && var row := db'.ships[|db.ships|];
         && db' == WithShip(db, row) && row.id == db.next.ships
         && created == FormatShip(json, row)
  {
    if !db.online then Err(StoreDown)
    else
      match InsertedShip(db, json, ParamsJs(json, data))
      case Err(e) => Err(Database(e))
      case Ok(row) => Ok((WithShip(db, row), FormatShip(json, row)))
  }

  /** `Ship.create` (TypeScript): nine snake_case columns, the JSONB
      columns left to their defaults, the stored row returned as is. */
  function ParamsTs(data: map<string, JsValue>): ShipParams
  {
    ShipParams(Get(data, "name"), Get(data, "type"), Get(data, "dwt"), Get(data, "current_port"),
               Get(data, "next_available_date"), Get(data, "lat"), Get(data, "lng"), Get(data, "owner"),
               None, None, Undefined, Get(data, "owner_id"))
  }

  function CreateTs(db: Db, json: JsonCodec, data: map<string, JsValue>): (r: Result<(Db, ShipRow), Thrown>)
    ensures r.Ok? <==> db.online && InsertedShip(db, json, ParamsTs(data)).Ok?
    ensures r.Ok? ==>
      var (db', created) := r.value;
      && |db'.ships| == |db.ships| + 1
      && var row := db'.ships[|db.ships|];
         && db' == WithShip(db, row) && row.id == db.next.ships
         && created == row
  {
    if !db.online then Err(StoreDown)
    else
      match InsertedShip(db, json, ParamsTs(data))
      case Err(e) => Err(Database(e))
      case Ok(row) => Ok((WithShip(db, row), row))
  }

  /** A created TypeScript ship has no images, no specifications and no
      day rate. */
  lemma CreateTsDefaults(db: Db, json: JsonCodec, data: map<string, JsValue>)
    requires CreateTs(db, json, data).Ok?
    ensures var row := CreateTs(db, json, data).value.1;
      row.images == Arr([]) && row.specifications == Obj(map[]) && row.ratePerDay.None?
  {
    var r := InsertedShip(db, json, ParamsTs(data));
    assert CreateTs(db, json, data).value.1 == r.value;
    assert IntegerParam(Undefined) == Ok(None);
  }

  /** Adding a ship keeps the store valid. */
  lemma WithShipValid(db: Db, row: ShipRow)
    requires Valid(db)
    requires row.id == db.next.ships && row.createdAt == db.clock + 1 && row.updatedAt == db.clock + 1
    requires row.ownerId.Some? ==> FindUser(db.users, row.ownerId.value).Some?
    ensures Valid(WithShip(db, row))
  {
    var db' := WithShip(db, row);
    assert db'.ships[|db.ships|] == row;
    forall i | 0 <= i < |db'.matches| && db'.matches[i].shipId.Some?
      ensures FindShip(db'.ships, db'.matches[i].shipId.value).Some?
    {
      var id := db.matches[i].shipId.value;
      var k :| 0 <= k < |db.ships| && db.ships[k].id == id;
      assert db'.ships[k].id == id;
    }
  }

  /** Creating a ship, by either draft, keeps the store valid. */
  lemma CreateValid(db: Db, json: JsonCodec, data: map<string, JsValue>)
    requires Valid(db)
    ensures CreateJs(db, json, data).Ok? ==> Valid(CreateJs(db, json, data).value.0)
    ensures CreateTs(db, json, data).Ok? ==> Valid(CreateTs(db, json, data).value.0)
  {
    var rj := InsertedShip(db, json, ParamsJs(json, data));
    if db.online && rj.Ok? {
      WithShipValid(db, rj.value);
    }
    var rt := InsertedShip(db, json, ParamsTs(data));
    if db.online && rt.Ok? {
      WithShipValid(db, rt.value);
    }
  }

  /** `findById` on the new id returns the ship a JavaScript create
      returned. */
  lemma CreateThenFind(db: Db, json: JsonCodec, data: map<string, JsValue>)
    requires Valid(db)
    requires CreateJs(db, json, data).Ok?
    requires InInt4(db.next.ships)
    ensures var (db', view) := CreateJs(db, json, data).value;
      && view.id == db.next.ships
      && FindByIdJs(db', json, IntToDecimal(db.next.ships)) == Ok(Some(view))
  {
    var (db', view) := CreateJs(db, json, data).value;
    var row := db'.ships[|db.ships|];
    Int4Decimal(db.next.ships);
    FindShipAppended(db.ships, row);
  }

  /** The images array and specifications object a JavaScript create is
      given come back unchanged. */
  lemma CreateKeepsImages(db: Db, json: JsonCodec, data: map<string, JsValue>)
    requires Lawful(json)
    requires CreateJs(db, json, data).Ok?
    ensures var view := CreateJs(db, json, data).value.1;
      && (Get(data, "images").Arr? && IsJson(Get(data, "images")) ==> view.images == Get(data, "images").items)
      && (Get(data, "specifications").Obj? && IsJson(Get(data, "specifications")) ==> view.specifications == Get(data, "specifications"))
  {
    var row := InsertedShip(db, json, ParamsJs(json, data)).value;
    assert CreateJs(db, json, data).value.1 == FormatShip(json, row);
    var images := Get(data, "images");
    if images.Arr? && IsJson(images) {
      StringifiedReadsBack(json, images);
      assert row.images == images;
    }
    var specs := Get(data, "specifications");
    if specs.Obj? && IsJson(specs) {
      StringifiedReadsBack(json, specs);
      assert row.specifications == specs;
    }
  }

  /** A JSON value sent as its `JSON.stringify` text is stored as itself. */
  lemma StringifiedReadsBack(json: JsonCodec, v: JsValue)
    requires Lawful(json) && IsJson(v)
    ensures JsonbColumn(json, Some(Stringified(json, v)), Undefined) == Ok(v)
  {
    var t := json.stringify(v).value;
    assert Stringified(json, v) == Str(t);
    assert TextParam(json, Str(t)) == Some(t);
  }

  /** A key no earlier row has is found in the appended row. */
  lemma {:induction false} FindShipAppended(ships: seq<ShipRow>, row: ShipRow)
    requires forall i :: 0 <= i < |ships| ==> ships[i].id != row.id
    ensures FindShip(ships + [row], row.id) == Some(row)
  {
    if ships == [] {
      assert [] + [row] == [row];
    } else {
      assert (ships + [row])[1..] == ships[1..] + [row];
      FindShipAppended(ships[1..], row);
    }
  }
}
