/**
Five-field cron expressions: parsing text into sets of values, and the
membership test. Integers are the source's 64-bit ones, so stepping through a
range can wrap around; the lemmas say exactly when it does not.
*/
module CronExpr {
  import opened Common
  import opened Text
  import opened Calendar

  datatype Bounds = Bounds(min: int, max: int)

  const MINUTE := 0
  const HOUR := 1
  const DAY_OF_MONTH := 2
  const MONTH := 3
  const DAY_OF_WEEK := 4

  datatype ParseError =
    | EmptyExpression
    | EmptyField
    | FieldCount(found: nat)
    | EmptyElement
    | InvalidStep
    | InvalidRange
    | ReversedRange
    | InvalidValue
    | OutOfBounds
    | MatchesNothing

  datatype Result<+T> = Ok(value: T) | Err(error: ParseError)

  /** star records a field written as exactly "*". */
  datatype Expr = Expr(raw: seq<string>, sets: seq<set<int>>, star: seq<bool>)

  ghost predicate FiveFields(e: Expr) {
    |e.raw| == 5 && |e.sets| == 5 && |e.star| == 5
  }

  predicate SaneBounds(b: Bounds) {
    0 <= b.min <= b.max <= 59
  }

  function BoundsOf(k: nat): (b: Bounds)
    requires k < 5
    ensures SaneBounds(b)
  {
    if k == MINUTE then Bounds(0, 59)
    else if k == HOUR then Bounds(0, 23)
    else if k == DAY_OF_MONTH then Bounds(1, 31)
    else if k == MONTH then Bounds(1, 12)
    else Bounds(0, 7)
  }

  // --- one comma part ---

  /** start, start + step, ... up to end */
  datatype Span = Span(start: int, end: int, step: int)

  /** The step after the slash, or one. */
  function StepOf(part: string): Result<int> {
    var k := IndexOf(part, '/');
    if k == |part| then Ok(1)
    else
      match Atoi(part[k + 1..])
      case Some(n) => if n <= 0 then Err(InvalidStep) else Ok(n)
      case None => Err(InvalidStep)
  }

  function RangeOf(base: string, step: int, b: Bounds): Result<Span> {
    if base == "*" then Ok(Span(b.min, b.max, step))
    else
      var dash := IndexOf(base, '-');
      if dash < |base| then
        match (Atoi(base[..dash]), Atoi(base[dash + 1..]))
        case (Some(a), Some(z)) => if a > z then Err(ReversedRange) else Ok(Span(a, z, step))
        case _ => Err(InvalidRange)
      else
        match Atoi(base)
        case Some(n) => Ok(Span(n, if step > 1 then b.max else n, step))
        case None => Err(InvalidValue)
  }

  /** What one part of a field means, or why it is refused. */
  function SpanOf(part: string, b: Bounds): (r: Result<Span>)
    requires SaneBounds(b)
    ensures r.Ok? ==> b.min <= r.value.start <= MAX_INT && r.value.end <= b.max && 1 <= r.value.step <= MAX_INT
  {
    if part == "" then Err(EmptyElement)
    else
      match StepOf(part)
      case Err(e) => Err(e)
      case Ok(step) =>
        match RangeOf(part[..IndexOf(part, '/')], step, b)
        case Err(e) => Err(e)
        case Ok(span) => if span.start < b.min || span.end > b.max then Err(OutOfBounds) else Ok(span)
  }

  // --- stepping through a span ---

  /** int64 addition of two values that are each in range. */
  function WrapAdd(a: int, b: int): int {
    if a + b > MAX_INT then a + b - 0x1_0000_0000_0000_0000 else a + b
  }

  /** Decreases along the loop, also when an enormous step wraps it around. */
  function Remaining(v: int, end: int, step: int): nat
    requires MIN_INT <= v <= MAX_INT && end <= 59 && 1 <= step <= MAX_INT
  {
    if v > end then 0
    else if step <= MAX_INT - 59 then end - v + 1
    else if v >= -0x4000_0000_0000_0000 then 2 * (v + 0x1_0000_0000_0000_0000) + 1
    else 2 * (v + step + 0x1_0000_0000_0000_0000) + 2
  }

  /** The values the loop visits from v on. */
  function Visited(v: int, end: int, step: int): (r: set<int>)
    requires MIN_INT <= v <= MAX_INT && end <= 59 && 1 <= step <= MAX_INT
    ensures forall x :: x in r ==> x <= end
    decreases Remaining(v, end, step)
  {
    if v > end then {} else {v} + Visited(WrapAdd(v, step), end, step)
  }

  function Expand(span: Span): set<int>
    requires MIN_INT <= span.start <= MAX_INT && span.end <= 59 && 1 <= span.step <= MAX_INT
  {
    Visited(span.start, span.end, span.step)
  }

  function Term(start: int, step: int, k: nat): int { start + k * step }

  /** Membership in the arithmetic progression a span denotes. */
  ghost predicate InSpan(span: Span, x: int) {
    span.start <= x <= span.end && exists k: nat :: x == Term(span.start, span.step, k)
  }

  /** The loop's counter never leaves 64 bits. */
  predicate StaysInRange(span: Span) {
    span.start > span.end || span.start + span.step <= MAX_INT
  }

  lemma TermShift(v: int, step: int, k: nat)
    ensures Term(v + step, step, k) == Term(v, step, k + 1)
    ensures step >= 1 ==> Term(v, step, k) >= v
  {
  }

  /** A progression is its first value and the progression from the next one. */
  lemma SpanUnfolds(v: int, end: int, step: int, x: int)
    requires step >= 1
    ensures InSpan(Span(v, end, step), x) <==> (v <= end && x == v) || InSpan(Span(v + step, end, step), x)
  {
    if x == v { assert x == Term(v, step, 0); }
    if InSpan(Span(v + step, end, step), x) {
      var k: nat :| x == Term(v + step, step, k);
      TermShift(v, step, k);
    }
    if InSpan(Span(v, end, step), x) && x != v {
      var k: nat :| x == Term(v, step, k);
      TermShift(v, step, k - 1);
      TermShift(v + step, step, k - 1);
    }
  }

  /** While the counter stays in range the loop visits exactly the progression. */
  lemma {:induction false} VisitedExactly(v: int, end: int, step: int, x: int)
    requires 0 <= v <= MAX_INT && end <= 59 && 1 <= step <= MAX_INT
    requires StaysInRange(Span(v, end, step))
    ensures x in Visited(v, end, step) <==> InSpan(Span(v, end, step), x)
    decreases Remaining(v, end, step)
  {
    if v <= end {
      SpanUnfolds(v, end, step, x);
      VisitedExactly(v + step, end, step, x);
    }
  }

  /** Once it leaves the range it wraps to a negative value and visits that. */
  lemma VisitsNegative(span: Span)
    requires 0 <= span.start <= MAX_INT && span.end <= 59 && 1 <= span.step <= MAX_INT
    requires !StaysInRange(span)
    ensures WrapAdd(span.start, span.step) < 0
    ensures WrapAdd(span.start, span.step) in Expand(span)
  {
    var w := WrapAdd(span.start, span.step);
    assert w in Visited(w, span.end, span.step);
  }

  /** Expanding a part gives its progression exactly when start + step fits in 64 bits. */
  lemma ExpandIff(span: Span)
    requires 0 <= span.start <= MAX_INT && span.end <= 59 && 1 <= span.step <= MAX_INT
    ensures (forall x :: x in Expand(span) <==> InSpan(span, x)) <==> StaysInRange(span)
  {
    if StaysInRange(span) {
      forall x ensures x in Expand(span) <==> InSpan(span, x) {
        VisitedExactly(span.start, span.end, span.step, x);
      }
    } else {
      VisitsNegative(span);
      assert !InSpan(span, WrapAdd(span.start, span.step));
    }
  }

  // --- the grammar, form by form ---

  function Checked(span: Span, b: Bounds): Result<Span> {
    if span.start < b.min || span.end > b.max then Err(OutOfBounds) else Ok(span)
  }

  lemma NumberText(n: nat, c: char)
    requires c == '/' || c == '-' || c == '*' || c == ','
    ensures c !in Itoa(n) && Itoa(n) != [c]
  {
    AtoiItoa(n);
  }

  /** base and base/s differ in the step only. */
  lemma StepForms(base: string, s: nat, b: Bounds)
    requires SaneBounds(b) && base != "" && '/' !in base && 1 <= s <= MAX_INT
    ensures SpanOf(base, b) == CheckedRange(base, 1, b)
    ensures SpanOf(base + "/" + Itoa(s), b) == CheckedRange(base, s, b)
  {
    AtoiItoa(s);
    assert base + "/" + Itoa(s) == base + ['/'] + Itoa(s);
    IndexAfter(base, '/', Itoa(s));
    assert base[..IndexOf(base, '/')] == base;
  }

  function CheckedRange(base: string, step: int, b: Bounds): Result<Span>
    requires SaneBounds(b)
  {
    match RangeOf(base, step, b)
    case Err(e) => Err(e)
    case Ok(span) => Checked(span, b)
  }

  lemma NumberForm(a: nat, step: int, b: Bounds)
    requires a <= MAX_INT
    ensures RangeOf(Itoa(a), step, b) == Ok(Span(a, if step > 1 then b.max else a, step))
  {
    AtoiItoa(a);
    NumberText(a, '-');
    NumberText(a, '*');
  }

  lemma RangeText(x: string, y: string, a: int, z: int, step: int, b: Bounds)
    requires '-' !in x && x != "" && Atoi(x) == Some(a) && Atoi(y) == Some(z)
    ensures RangeOf(x + ['-'] + y, step, b) == if a > z then Err(ReversedRange) else Ok(Span(a, z, step))
  {
    IndexAfter(x, '-', y);
    assert |x + ['-'] + y| >= 2;
  }

  lemma RangeForm(a: nat, z: nat, step: int, b: Bounds)
    requires a <= MAX_INT && z <= MAX_INT
    ensures RangeOf(Itoa(a) + "-" + Itoa(z), step, b) == if a > z then Err(ReversedRange) else Ok(Span(a, z, step))
  {
    AtoiItoa(a);
    AtoiItoa(z);
    NumberText(a, '-');
    RangeText(Itoa(a), Itoa(z), a, z, step, b);
  }

  /**
  The six forms of a part: star, n, a-z, and each with /s. A bare number with a
  step greater than one runs to the field's maximum.
  */
  lemma SpanForms(b: Bounds, a: nat, z: nat, s: nat)
    requires SaneBounds(b) && a <= MAX_INT && z <= MAX_INT && 1 <= s <= MAX_INT
    ensures SpanOf("*", b) == Ok(Span(b.min, b.max, 1))
    ensures SpanOf("*" + "/" + Itoa(s), b) == Ok(Span(b.min, b.max, s))
    ensures SpanOf(Itoa(a), b) == Checked(Span(a, a, 1), b)
    ensures SpanOf(Itoa(a) + "/" + Itoa(s), b) == Checked(Span(a, if s > 1 then b.max else a, s), b)
    ensures SpanOf(Itoa(a) + "-" + Itoa(z), b) == if a > z then Err(ReversedRange) else Checked(Span(a, z, 1), b)
    ensures SpanOf(Itoa(a) + "-" + Itoa(z) + "/" + Itoa(s), b)
            == if a > z then Err(ReversedRange) else Checked(Span(a, z, s), b)
  {
    NumberText(a, '/');
    NumberText(z, '/');
    StepForms("*", s, b);
    StepForms(Itoa(a), s, b);
    StepForms(Itoa(a) + "-" + Itoa(z), s, b);
    NumberForm(a, 1, b);
    NumberForm(a, s, b);
    RangeForm(a, z, 1, b);
    RangeForm(a, z, s, b);
  }

  /** With the largest step, minute 59 fires on minute 57 as well, and on a negative one. */
  lemma LargestStepWraps()
    ensures 57 in Expand(Span(59, 59, MAX_INT)) && !InSpan(Span(59, 59, MAX_INT), 57)
    ensures WrapAdd(59, MAX_INT) in Expand(Span(59, 59, MAX_INT)) && WrapAdd(59, MAX_INT) < 0
  {
    var w := WrapAdd(59, MAX_INT);
    assert WrapAdd(w, MAX_INT) == 57;
    assert 57 in Visited(57, 59, MAX_INT);
    assert 57 in Visited(w, 59, MAX_INT);
  }

  // --- collecting results, the first refusal deciding ---

  function Collect(rs: seq<Result<set<int>>>): Result<set<int>> {
    if rs == [] then Ok({})
    else
      var last := |rs| - 1;
      match (Collect(rs[..last]), rs[last])
      case (Err(e), _) => Err(e)
      case (_, Err(e)) => Err(e)
      case (Ok(values), Ok(more)) => Ok(values + more)
  }

  function Sequence(rs: seq<Result<set<int>>>): (r: Result<seq<set<int>>>)
    ensures r.Ok? ==> |r.value| == |rs|
  {
    if rs == [] then Ok([])
    else
      var last := |rs| - 1;
      match (Sequence(rs[..last]), rs[last])
      case (Err(e), _) => Err(e)
      case (_, Err(e)) => Err(e)
      case (Ok(sets), Ok(next)) => Ok(sets + [next])
  }

  predicate AllOk(rs: seq<Result<set<int>>>) {
    forall i :: 0 <= i < |rs| ==> rs[i].Ok?
  }

  lemma {:induction false} CollectUnion(rs: seq<Result<set<int>>>, x: int)
    ensures Collect(rs).Ok? <==> AllOk(rs)
    ensures Collect(rs).Ok? ==> (x in Collect(rs).value <==> exists i :: 0 <= i < |rs| && x in rs[i].value)
  {
    if rs != [] {
      var last := |rs| - 1;
      CollectUnion(rs[..last], x);
      assert forall i :: 0 <= i < last ==> rs[..last][i] == rs[i];
    }
  }

  lemma {:induction false} CollectEmptyIff(rs: seq<Result<set<int>>>)
    requires AllOk(rs)
    ensures Collect(rs).Ok?
    ensures Collect(rs).value == {} <==> forall i :: 0 <= i < |rs| ==> rs[i].value == {}
  {
    if rs != [] {
      var last := |rs| - 1;
      CollectEmptyIff(rs[..last]);
      assert forall i :: 0 <= i < last ==> rs[..last][i] == rs[i];
    }
  }

  lemma {:induction false} SequenceIs(rs: seq<Result<set<int>>>)
    ensures Sequence(rs).Ok? <==> AllOk(rs)
    ensures Sequence(rs).Ok? ==> forall i :: 0 <= i < |rs| ==> Sequence(rs).value[i] == rs[i].value
  {
    if rs != [] {
      var last := |rs| - 1;
      SequenceIs(rs[..last]);
      assert forall i :: 0 <= i < last ==> rs[..last][i] == rs[i];
    }
  }

  lemma {:induction false} ErrorSticks(rs: seq<Result<set<int>>>, k: nat)
    requires k <= |rs|
    ensures Collect(rs[..k]).Err? ==> Collect(rs) == Collect(rs[..k])
    ensures Sequence(rs[..k]).Err? ==> Sequence(rs) == Sequence(rs[..k])
    decreases |rs|
  {
    if k < |rs| {
      assert rs[..|rs| - 1][..k] == rs[..k];
      ErrorSticks(rs[..|rs| - 1], k);
    } else {
      assert rs[..k] == rs;
    }
  }

  // --- a field and the whole expression ---

  function PartSet(part: string, b: Bounds): Result<set<int>>
    requires SaneBounds(b)
  {
    match SpanOf(part, b)
    case Err(e) => Err(e)
    case Ok(span) => Ok(Expand(span))
  }

  function PartSets(field: string, b: Bounds): seq<Result<set<int>>>
    requires SaneBounds(b)
  {
    var parts := Split(field, ',');
    seq(|parts|, i requires 0 <= i < |parts| => PartSet(parts[i], b))
  }

  function FieldSet(field: string, b: Bounds): Result<set<int>>
    requires SaneBounds(b)
  {
    if field == "" then Err(EmptyField)
    else
      match Collect(PartSets(field, b))
      case Err(e) => Err(e)
      case Ok(values) => if values == {} then Err(MatchesNothing) else Ok(values)
  }

  function FieldSets(fields: seq<string>): seq<Result<set<int>>>
    requires |fields| == 5
  {
    seq(5, i requires 0 <= i < 5 => FieldSet(fields[i], BoundsOf(i)))
  }

  /** 7 and 0 are the same day. */
  function FoldSunday(days: set<int>): set<int> {
    if 7 in days then days - {7} + {0} else days
  }

  function Build(fields: seq<string>, sets: seq<set<int>>): (e: Expr)
    requires |fields| == 5 && |sets| == 5
    ensures FiveFields(e)
  {
    Expr(fields, sets[DAY_OF_WEEK := FoldSunday(sets[DAY_OF_WEEK])],
         seq(5, i requires 0 <= i < 5 => fields[i] == "*"))
  }

  function ParseFields(fields: seq<string>): (r: Result<Expr>)
    ensures r.Ok? ==> FiveFields(r.value)
  {
    if |fields| != 5 then Err(FieldCount(|fields|))
    else
      match Sequence(FieldSets(fields))
      case Err(e) => Err(e)
      case Ok(sets) => Ok(Build(fields, sets))
  }

  function Parse(text: string): (r: Result<Expr>)
    ensures r.Ok? ==> FiveFields(r.value)
  {
    var normalized := Join(Fields(text));
    if normalized == "" then Err(EmptyExpression) else ParseFields(Split(normalized, ' '))
  }

  function Raw(e: Expr): string { Join(e.raw) }

  // --- what parsing means ---

  ghost predicate PartDenotes(part: string, b: Bounds, x: int)
    requires SaneBounds(b)
  {
    SpanOf(part, b).Ok? && InSpan(SpanOf(part, b).value, x)
  }

  /** x lies in the progression of some part. */
  ghost predicate Denoted(field: string, b: Bounds, x: int)
    requires SaneBounds(b)
  {
    exists i :: 0 <= i < |Split(field, ',')| && PartDenotes(Split(field, ',')[i], b, x)
  }

  ghost predicate PartStays(part: string, b: Bounds)
    requires SaneBounds(b)
  {
    SpanOf(part, b).Ok? ==> StaysInRange(SpanOf(part, b).value)
  }

  /** No part's stepping leaves 64 bits. */
  ghost predicate AllStay(field: string, b: Bounds)
    requires SaneBounds(b)
  {
    forall i :: 0 <= i < |Split(field, ',')| ==> PartStays(Split(field, ',')[i], b)
  }

  /** One part: its set is its progression exactly when its step does not overflow. */
  lemma PartExactIff(part: string, b: Bounds)
    requires SaneBounds(b) && PartSet(part, b).Ok?
    ensures (forall x :: x in PartSet(part, b).value <==> PartDenotes(part, b, x)) <==> PartStays(part, b)
    ensures !PartStays(part, b) ==> exists x :: x in PartSet(part, b).value && x < 0
    ensures forall x :: PartDenotes(part, b, x) ==> b.min <= x <= b.max
  {
    var span := SpanOf(part, b).value;
    ExpandIff(span);
    if !StaysInRange(span) { VisitsNegative(span); }
  }

  /**
  A field's set is exactly the union of the progressions its parts denote if
  and only if no part's step overflows.
  */
  lemma FieldExactIff(field: string, b: Bounds)
    requires SaneBounds(b)
    ensures FieldSet(field, b).Ok? ==>
              ((forall x :: x in FieldSet(field, b).value <==> Denoted(field, b, x)) <==> AllStay(field, b))
  {
    if FieldSet(field, b).Err? { return; }
    var parts, rs := Split(field, ','), PartSets(field, b);
    CollectUnion(rs, 0);
    forall i | 0 <= i < |parts| ensures rs[i] == PartSet(parts[i], b) && rs[i].Ok? {}
    if AllStay(field, b) {
      forall x ensures x in FieldSet(field, b).value <==> Denoted(field, b, x) {
        CollectUnion(rs, x);
        forall i | 0 <= i < |parts| ensures x in rs[i].value <==> PartDenotes(parts[i], b, x) {
          PartExactIff(parts[i], b);
        }
      }
    } else {
      var i :| 0 <= i < |parts| && !PartStays(parts[i], b);
      PartExactIff(parts[i], b);
      var x :| x in PartSet(parts[i], b).value && x < 0;
      CollectUnion(rs, x);
      assert x in rs[i].value;
      forall j | 0 <= j < |parts| ensures !PartDenotes(parts[j], b, x) {
        PartExactIff(parts[j], b);
      }
    }
  }

  /** A part is not empty. */
  predicate PartFires(part: string, b: Bounds)
    requires SaneBounds(b)
  {
    SpanOf(part, b).Ok? && SpanOf(part, b).value.start <= SpanOf(part, b).value.end
  }

  lemma PartFiresIff(part: string, b: Bounds)
    requires SaneBounds(b) && PartSet(part, b).Ok?
    ensures PartFires(part, b) <==> PartSet(part, b).value != {}
  {
    var span := SpanOf(part, b).value;
    if span.start <= span.end { assert span.start in Expand(span); }
  }

  /** A field is accepted exactly when every part is, and some part is not empty. */
  ghost predicate FieldAccepted(field: string, b: Bounds)
    requires SaneBounds(b)
  {
    var parts := Split(field, ',');
    && field != ""
    && (forall i :: 0 <= i < |parts| ==> SpanOf(parts[i], b).Ok?)
    && (exists i :: 0 <= i < |parts| && PartFires(parts[i], b))
  }

  lemma PartAt(field: string, b: Bounds, i: nat)
    requires SaneBounds(b) && i < |Split(field, ',')|
    ensures PartSets(field, b)[i].Ok? <==> SpanOf(Split(field, ',')[i], b).Ok?
    ensures PartSets(field, b)[i].Ok? ==>
              (PartFires(Split(field, ',')[i], b) <==> PartSets(field, b)[i].value != {})
  {
    assert PartSets(field, b)[i] == PartSet(Split(field, ',')[i], b);
    if PartSets(field, b)[i].Ok? { PartFiresIff(Split(field, ',')[i], b); }
  }

  lemma FieldAcceptedIff(field: string, b: Bounds)
    requires SaneBounds(b)
    ensures FieldSet(field, b).Ok? <==> FieldAccepted(field, b)
  {
    var parts, rs := Split(field, ','), PartSets(field, b);
    CollectUnion(rs, 0);
    forall i | 0 <= i < |parts|
      ensures rs[i].Ok? <==> SpanOf(parts[i], b).Ok?
      ensures rs[i].Ok? ==> (PartFires(parts[i], b) <==> rs[i].value != {})
    {
      PartAt(field, b, i);
    }
    if AllOk(rs) { CollectEmptyIff(rs); }
  }

  /** A bare value above the maximum is accepted when it carries a step, and denotes nothing. */
  lemma ValueAboveMaximum(b: Bounds, n: nat, s: nat)
    requires SaneBounds(b) && b.max < n <= MAX_INT && 2 <= s <= MAX_INT
    ensures SpanOf(Itoa(n) + "/" + Itoa(s), b).Ok?
    ensures !PartFires(Itoa(n) + "/" + Itoa(s), b)
    ensures SpanOf(Itoa(n), b) == Err(OutOfBounds)
  {
    SpanForms(b, n, n, s);
  }

  /** A field's values lie within its bounds exactly when no step overflows. */
  lemma FieldInBoundsIff(field: string, b: Bounds)
    requires SaneBounds(b)
    ensures FieldSet(field, b).Ok? ==>
              ((forall x :: x in FieldSet(field, b).value ==> b.min <= x <= b.max) <==> AllStay(field, b))
  {
    if FieldSet(field, b).Err? { return; }
    var parts, rs := Split(field, ','), PartSets(field, b);
    FieldExactIff(field, b);
    if AllStay(field, b) {
      forall x | x in FieldSet(field, b).value ensures b.min <= x <= b.max {
        var i :| 0 <= i < |parts| && PartDenotes(parts[i], b, x);
      }
    } else {
      var i :| 0 <= i < |parts| && !PartStays(parts[i], b);
      CollectUnion(rs, 0);
      assert rs[i].Ok? && rs[i] == PartSet(parts[i], b);
      PartExactIff(parts[i], b);
      var x :| x in rs[i].value && x < 0;
      CollectUnion(rs, x);
    }
  }

  /** Overflow or not, an accepted field has a value, and none above its maximum. */
  lemma FieldTop(field: string, b: Bounds)
    requires SaneBounds(b) && FieldSet(field, b).Ok?
    ensures FieldSet(field, b).value != {} && forall x :: x in FieldSet(field, b).value ==> x <= b.max
  {
    var parts, rs := Split(field, ','), PartSets(field, b);
    forall x | x in FieldSet(field, b).value ensures x <= b.max {
      CollectUnion(rs, x);
      var i :| 0 <= i < |rs| && x in rs[i].value;
      assert rs[i] == PartSet(parts[i], b);
    }
  }

  /** The text is read as its white-space fields, whatever the spacing. */
  lemma ParseReadsFields(text: string)
    ensures Parse(text) == if Fields(text) == [] then Err(EmptyExpression) else ParseFields(Fields(text))
  {
    var fields := Fields(text);
    if fields != [] {
      TokensHaveNoSpace(fields);
      SplitJoin(fields);
      assert fields[0] != "" && Join(fields) != "";
    }
  }

  ghost predicate AllAccepted(fields: seq<string>)
    requires |fields| == 5
  {
    forall k: nat :: k < 5 ==> FieldAccepted(fields[k], BoundsOf(k))
  }

  lemma ParseFieldsIff(fields: seq<string>)
    requires |fields| == 5
    ensures ParseFields(fields).Ok? <==> AllAccepted(fields)
    ensures ParseFields(fields).Ok? ==> ParseFields(fields).value.raw == fields
    ensures ParseFields(fields).Ok? ==> forall k: nat :: k < 5 ==>
                FieldDescribes(ParseFields(fields).value, fields[k], k)
  {
    SequenceIs(FieldSets(fields));
    forall k: nat | k < 5 ensures FieldSets(fields)[k].Ok? <==> FieldAccepted(fields[k], BoundsOf(k)) {
      FieldAcceptedIff(fields[k], BoundsOf(k));
    }
    if ParseFields(fields).Ok? {
      forall k: nat | k < 5 ensures FieldDescribes(ParseFields(fields).value, fields[k], k) {
        assert FieldSets(fields)[k] == FieldSet(fields[k], BoundsOf(k));
      }
    }
  }

  /**
  Parsing accepts exactly five fields each of which is accepted, and then every
  set is its field's set, with 7 folded into 0 after expansion, and a field is
  marked as star exactly when it is written "*".
  */
  lemma ParseIff(text: string)
    ensures Parse(text).Ok? <==> |Fields(text)| == 5 && AllAccepted(Fields(text))
    ensures Parse(text).Ok? ==> Parse(text).value.raw == Fields(text)
    ensures Parse(text).Ok? ==> forall k: nat :: k < 5 ==>
                FieldDescribes(Parse(text).value, Fields(text)[k], k)
  {
    ParseReadsFields(text);
    if |Fields(text)| == 5 { ParseFieldsIff(Fields(text)); }
  }

  ghost predicate FieldDescribes(e: Expr, field: string, k: nat)
    requires FiveFields(e) && k < 5
  {
    && FieldSet(field, BoundsOf(k)).Ok?
    && e.sets[k] == (var values := FieldSet(field, BoundsOf(k)).value;
                     if k == DAY_OF_WEEK then FoldSunday(values) else values)
    && (e.star[k] <==> field == "*")
  }

  /** The normalised text of a parsed expression parses to that expression again. */
  lemma ParseRaw(text: string)
    ensures Parse(text).Ok? ==> Parse(Raw(Parse(text).value)) == Parse(text)
  {
    if Parse(text).Ok? {
      ParseReadsFields(text);
      FieldsJoin(Fields(text));
      ParseReadsFields(Join(Fields(text)));
    }
  }

  // --- the loops ---

  /** The stepping loop of one part, adding to the field's set. */
  method FillSpan(span: Span, into: set<int>) returns (values: set<int>)
    requires MIN_INT <= span.start <= MAX_INT && span.end <= 59 && 1 <= span.step <= MAX_INT
    ensures values == into + Expand(span)
  {
    values := into;
    var v := span.start;
    while v <= span.end
      invariant MIN_INT <= v <= MAX_INT
      invariant values + Visited(v, span.end, span.step) == into + Expand(span)
      decreases Remaining(v, span.end, span.step)
    {
      values := values + {v};
      v := WrapAdd(v, span.step);
    }
  }

  method ParsePart(part: string, b: Bounds, into: set<int>) returns (r: Result<set<int>>)
    requires SaneBounds(b)
    ensures PartSet(part, b).Err? ==> r == Err(PartSet(part, b).error)
    ensures PartSet(part, b).Ok? ==> r == Ok(into + PartSet(part, b).value)
  {
    var analysed := SpanOf(part, b);
    if analysed.Err? { return Err(analysed.error); }
    var values := FillSpan(analysed.value, into);
    r := Ok(values);
  }

  method ParseField(field: string, b: Bounds) returns (r: Result<set<int>>)
    requires SaneBounds(b)
    ensures r == FieldSet(field, b)
  {
    if field == "" { return Err(EmptyField); }
    var parts := Split(field, ',');
    ghost var rs := PartSets(field, b);
    var values := {};
    for i := 0 to |parts|
      invariant Collect(rs[..i]) == Ok(values)
    {
      assert rs[..i + 1][..i] == rs[..i];
      var next := ParsePart(parts[i], b, values);
      if next.Err? {
        ErrorSticks(rs, i + 1);
        return Err(next.error);
      }
      values := next.value;
    }
    assert rs[..|parts|] == rs;
    if values == {} { return Err(MatchesNothing); }
    r := Ok(values);
  }

  method ParseText(text: string) returns (r: Result<Expr>)
    ensures r == Parse(text)
  {
    var normalized := Join(Fields(text));
    if normalized == "" { return Err(EmptyExpression); }
    var fields := Split(normalized, ' ');
    if |fields| != 5 { return Err(FieldCount(|fields|)); }
    ghost var rs := FieldSets(fields);
    var sets: seq<set<int>> := [];
    for i := 0 to 5
      invariant Sequence(rs[..i]) == Ok(sets)
    {
      assert rs[..i + 1][..i] == rs[..i];
      var next := ParseField(fields[i], BoundsOf(i));
      if next.Err? {
        ErrorSticks(rs, i + 1);
        return Err(next.error);
      }
      sets := sets + [next.value];
    }
    assert rs[..5] == rs;
    r := Ok(Build(fields, sets));
  }

  // --- the membership test ---

  /** The day rule: both restricted means either, otherwise the restricted one decides. */
  predicate DayMatches(e: Expr, dayOfMonth: int, dayOfWeek: int)
    requires FiveFields(e)
  {
    var domMatch := dayOfMonth in e.sets[DAY_OF_MONTH];
    var dowMatch := dayOfWeek in e.sets[DAY_OF_WEEK];
    if e.star[DAY_OF_MONTH] && e.star[DAY_OF_WEEK] then true
    else if e.star[DAY_OF_MONTH] then dowMatch
    else if e.star[DAY_OF_WEEK] then domMatch
    else domMatch || dowMatch
  }

  predicate DateMatches(e: Expr, n: int)
    requires FiveFields(e)
  {
    DateOf(n).month in e.sets[MONTH] && DayMatches(e, DateOf(n).day, Weekday(n))
  }

  /** Whether the expression falls on a minute. */
  predicate Matches(e: Expr, t: int)
    requires FiveFields(e)
  {
    MinuteOf(t) in e.sets[MINUTE] && HourOf(t) in e.sets[HOUR] && DateMatches(e, DayOf(t))
  }
}
