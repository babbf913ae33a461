/**
What particular texts denote, from the text the parser is given: plain numbers,
stars, and a step so large that the loop counter wraps.
*/
module CronTexts {
  import opened Text
  import opened Calendar
  import opened CronExpr
  import opened Search
  import opened CronNext

  lemma OnePart(field: string, b: Bounds)
    requires SaneBounds(b) && field != "" && ',' !in field
    requires PartSet(field, b).Ok? && PartSet(field, b).value != {}
    ensures FieldSet(field, b) == PartSet(field, b)
  {
    var rs, values := PartSets(field, b), PartSet(field, b).value;
    assert Split(field, ',') == [field];
    assert rs == [Ok(values)];
    CollectOne(rs, values);
  }

  lemma CollectOne(rs: seq<Result<set<int>>>, values: set<int>)
    requires rs == [Ok(values)]
    ensures Collect(rs) == Ok(values)
  {
    assert rs[..0] == [];
    assert Collect(rs[..0]) == Ok({});
    assert {} + values == values;
  }

  lemma NumberPart(field: string, n: nat, b: Bounds)
    requires field == Itoa(n) && SaneBounds(b) && b.min <= n <= b.max
    ensures PartSet(field, b) == Ok({n})
  {
    NumberText(n, '/');
    assert field[..IndexOf(field, '/')] == field;
    NumberForm(n, 1, b);
    OneValue(n);
  }

  lemma OneValue(n: nat)
    requires n <= 59
    ensures Expand(Span(n, n, 1)) == {n}
  {
    assert Visited(n + 1, n, 1) == {};
  }

  /** A plain number denotes itself. */
  lemma NumberField(field: string, n: nat, b: Bounds)
    requires field == Itoa(n) && SaneBounds(b) && b.min <= n <= b.max
    ensures FieldSet(field, b) == Ok({n}) && field != "*"
    ensures IsToken(field)
  {
    NumberText(n, ',');
    NumberText(n, '*');
    NumberPart(field, n, b);
    OnePart(field, b);
    AtoiItoa(n);
  }

  lemma StarField(field: string, b: Bounds)
    requires field == "*" && SaneBounds(b)
    ensures FieldSet(field, b).Ok? && b.min in FieldSet(field, b).value && IsToken(field)
  {
    assert field[..IndexOf(field, '/')] == field;
    assert SpanOf(field, b) == Ok(Span(b.min, b.max, 1));
    assert b.min in Expand(Span(b.min, b.max, 1));
    OnePart(field, b);
  }

  lemma JoinFive(a: string, b: string, c: string, d: string, e: string)
    ensures Join([a, b, c, d, e]) == a + " " + b + " " + c + " " + d + " " + e
  {
    JoinCons([a, b, c, d, e]);
    JoinCons([b, c, d, e]);
    JoinCons([c, d, e]);
    JoinCons([d, e]);
    assert [a, b, c, d, e][1..] == [b, c, d, e] && [b, c, d, e][1..] == [c, d, e];
    assert [c, d, e][1..] == [d, e] && [d, e][1..] == [e];
  }

  ghost predicate AllSets(fields: seq<string>)
    requires |fields| == 5
  {
    forall k: nat :: k < 5 ==> FieldSet(fields[k], BoundsOf(k)).Ok?
  }

  /** Five fields with a space between them. */
  lemma JoinedParses(fields: seq<string>)
    requires |fields| == 5 && AllTokens(fields) && AllSets(fields)
    ensures var r := Parse(Join(fields));
            r.Ok? && forall k: nat :: k < 5 ==> FieldDescribes(r.value, fields[k], k)
  {
    FieldsJoin(fields);
    ParseIff(Join(fields));
    forall k: nat | k < 5 ensures FieldAccepted(fields[k], BoundsOf(k)) {
      FieldAcceptedIff(fields[k], BoundsOf(k));
    }
  }

  /** e falls on one minute of one date of the year, whatever the weekday. */
  ghost predicate Yearly(e: Expr, minute: int, hour: int, day: int, month: int) {
    && FiveFields(e)
    && e.sets[MINUTE] == {minute} && e.sets[HOUR] == {hour} && e.sets[DAY_OF_MONTH] == {day} && e.sets[MONTH] == {month}
    && !e.star[DAY_OF_MONTH] && e.star[DAY_OF_WEEK]
  }

  /** The k-th field is this number and nothing else. */
  ghost predicate IsNumber(field: string, k: nat, n: int)
    requires k < 5
  {
    IsToken(field) && field != "*" && FieldSet(field, BoundsOf(k)) == Ok({n})
  }

  lemma NumberIs(field: string, k: nat, n: nat)
    requires k < 5 && field == Itoa(n) && BoundsOf(k).min <= n <= BoundsOf(k).max
    ensures IsNumber(field, k, n)
  {
    NumberField(field, n, BoundsOf(k));
  }

  lemma DescribesNumber(e: Expr, field: string, k: nat, n: int)
    requires k < 4 && FiveFields(e) && FieldDescribes(e, field, k) && IsNumber(field, k, n)
    ensures e.sets[k] == {n} && !e.star[k]
  {
  }

  /** Four numbers and a star. */
  ghost predicate NumbersAndStar(fields: seq<string>, ns: seq<int>) {
    && |fields| == 5 && |ns| == 4
    && (forall k: nat :: k < 4 ==> IsNumber(fields[k], k, ns[k]))
    && fields[4] == "*"
  }

  lemma NumbersParse(fields: seq<string>, ns: seq<int>)
    requires NumbersAndStar(fields, ns)
    ensures Parse(Join(fields)).Ok?
    ensures Yearly(Parse(Join(fields)).value, ns[0], ns[1], ns[2], ns[3])
  {
    forall k: nat | k < 5 ensures IsToken(fields[k]) && FieldSet(fields[k], BoundsOf(k)).Ok? {
      if k < 4 { assert IsNumber(fields[k], k, ns[k]); } else { StarField(fields[k], BoundsOf(k)); }
    }
    JoinedParses(fields);
    var e := Parse(Join(fields)).value;
    forall k: nat | k < 4 ensures e.sets[k] == {ns[k]} && !e.star[k] {
      assert FieldDescribes(e, fields[k], k);
      DescribesNumber(e, fields[k], k, ns[k]);
    }
    assert FieldDescribes(e, fields[4], 4);
  }

  /** The numbers written out, each within its bounds. */
  ghost predicate Written(fields: seq<string>, ns: seq<nat>) {
    && |fields| == 5 && |ns| == 4
    && (forall k: nat :: k < 4 ==> fields[k] == Itoa(ns[k]) && BoundsOf(k).min <= ns[k] <= BoundsOf(k).max)
    && fields[4] == "*"
  }

  lemma WrittenParses(fields: seq<string>, ns: seq<nat>)
    requires Written(fields, ns)
    ensures Parse(Join(fields)).Ok?
    ensures Yearly(Parse(Join(fields)).value, ns[0], ns[1], ns[2], ns[3])
  {
    forall k: nat | k < 4 ensures IsNumber(fields[k], k, ns[k]) {
      NumberIs(fields[k], k, ns[k]);
    }
    NumbersParse(fields, ns);
  }

  lemma LeapFields() returns (fields: seq<string>, ns: seq<nat>)
    ensures Written(fields, ns) && ns == [0, 0, 29, 2]
    ensures Join(fields) == "0 0 29 2 *"
  {
    ns := [0, 0, 29, 2];
    fields := [Itoa(ns[0]), Itoa(ns[1]), Itoa(ns[2]), Itoa(ns[3]), "*"];
    JoinFive(fields[0], fields[1], fields[2], fields[3], fields[4]);
    assert Itoa(29) == Itoa(2) + ['9'];
  }

  /** The text for midnight on 29 February. */
  lemma LeapDayText(text: string)
    requires text == "0 0 29 2 *"
    ensures Parse(text).Ok? && Yearly(Parse(text).value, 0, 0, 29, 2)
  {
    var fields, ns := LeapFields();
    WrittenParses(fields, ns);
  }

  // --- the largest step ---

  function Digit(d: nat): char
    requires d < 10
  {
    ('0' as int + d) as char
  }

  lemma OneMoreDigit(n: nat, d: nat)
    requires n >= 1 && d < 10
    ensures Itoa(10 * n + d) == Itoa(n) + [Digit(d)]
  {
    assert (10 * n + d) / 10 == n && (10 * n + d) % 10 == d;
  }

  /** Three more digits behind a written number. */
  lemma ThreeMore(s: string, n: nat, a: nat, b: nat, c: nat) returns (t: string, m: nat)
    requires s == Itoa(n) && n >= 1 && a < 10 && b < 10 && c < 10
    ensures t == s + [Digit(a), Digit(b), Digit(c)]
    ensures m == 1000 * n + 100 * a + 10 * b + c && t == Itoa(m)
  {
    var m1 := 10 * n + a;
    var m2 := 10 * m1 + b;
    OneMoreDigit(n, a);
    OneMoreDigit(m1, b);
    OneMoreDigit(m2, c);
    t, m := s + [Digit(a)] + [Digit(b)] + [Digit(c)], 10 * m2 + c;
  }

  lemma LargestHalf() returns (s: string, n: nat)
    ensures s == "9223372036" && n == 9223372036 && s == Itoa(n)
  {
    s, n := "9", 9;
    s, n := ThreeMore(s, n, 2, 2, 3);
    s, n := ThreeMore(s, n, 3, 7, 2);
    s, n := ThreeMore(s, n, 0, 3, 6);
  }

  lemma NextSix(s: string, n: nat) returns (t: string, m: nat)
    requires s == Itoa(n) && n >= 1
    ensures t == s + "854775" && m == 1000000 * n + 854775 && t == Itoa(m)
  {
    var half, k := ThreeMore(s, n, 8, 5, 4);
    t, m := ThreeMore(half, k, 7, 7, 5);
  }

  lemma LastThree(s: string, n: nat) returns (t: string, m: nat)
    requires s == Itoa(n) && n >= 1
    ensures t == s + "807" && m == 1000 * n + 807 && t == Itoa(m)
  {
    t, m := ThreeMore(s, n, 8, 0, 7);
  }

  lemma LargestWritten() returns (s: string, n: nat)
    ensures s == "9223372036854775807" && n == MAX_INT && s == Itoa(n)
  {
    s, n := LargestHalf();
    s, n := NextSix(s, n);
    s, n := LastThree(s, n);
  }

  lemma StepToken(field: string, x: string, y: string)
    requires field == x + "/" + y && x != "" && y != "" && AllDigits(x) && AllDigits(y)
    ensures IsToken(field) && ',' !in field && field != "*"
  {
    assert |field| >= 3;
    forall i | 0 <= i < |field| ensures !IsSpace(field[i]) && field[i] != ',' {
      assert i != |x| ==> IsDigit(field[i]);
    }
  }

  lemma StepPart(field: string, a: nat, s: nat, b: Bounds)
    requires SaneBounds(b) && b.min <= a <= b.max && 1 < s <= MAX_INT && field == Itoa(a) + "/" + Itoa(s)
    ensures SpanOf(field, b) == Ok(Span(a, b.max, s)) && IsToken(field) && Split(field, ',') == [field]
  {
    NumberText(a, '/');
    StepForms(Itoa(a), s, b);
    NumberForm(a, s, b);
    AtoiItoa(a);
    AtoiItoa(s);
    StepToken(field, Itoa(a), Itoa(s));
  }

  /** A value with the largest step: the field is accepted and is not what it denotes. */
  lemma StepField(field: string, a: nat, s: nat, b: Bounds)
    requires SaneBounds(b) && b.min <= a <= b.max && field == Itoa(a) + "/" + Itoa(s)
    requires 1 < s <= MAX_INT && a + s > MAX_INT
    ensures FieldSet(field, b) == Ok(Expand(Span(a, b.max, s))) && IsToken(field)
    ensures !AllStay(field, b)
    ensures forall x :: Denoted(field, b, x) <==> InSpan(Span(a, b.max, s), x)
  {
    StepPart(field, a, s, b);
    assert a in Expand(Span(a, b.max, s));
    OnePart(field, b);
    assert Split(field, ',')[0] == field && !PartStays(field, b);
    forall x ensures Denoted(field, b, x) <==> InSpan(Span(a, b.max, s), x) {
      assert PartDenotes(Split(field, ',')[0], b, x) <==> InSpan(Span(a, b.max, s), x);
    }
  }

  lemma FiftyNine() returns (s: string, a: nat)
    ensures s == "59" && a == 59 && s == Itoa(a)
  {
    a := 59;
    s := Itoa(5) + ['9'];
  }

  lemma Spelled(field: string, x: string, y: string)
    requires field == "59/9223372036854775807" && x == "59" && y == "9223372036854775807"
    ensures field == x + "/" + y
  {
  }

  lemma LargestSpelled(field: string) returns (a: nat, n: nat)
    requires field == "59/9223372036854775807"
    ensures field == Itoa(a) + "/" + Itoa(n) && a == 59 && n == MAX_INT
  {
    var x, y;
    x, a := FiftyNine();
    y, n := LargestWritten();
    Spelled(field, x, y);
  }

  lemma LargestStepSpan(field: string, a: nat, n: nat, b: Bounds)
    requires field == Itoa(a) + "/" + Itoa(n) && a == 59 && n == MAX_INT && b == Bounds(0, 59)
    ensures IsToken(field) && !AllStay(field, b)
    ensures FieldSet(field, b) == Ok(Expand(Span(59, 59, MAX_INT))) && !Denoted(field, b, 57)
  {
    StepField(field, a, n, b);
  }

  /** The minute field with the largest step: 57, which it does not denote, and a negative value are in its set. */
  lemma LargestStepField(field: string)
    requires field == "59/9223372036854775807"
    ensures IsToken(field) && !AllStay(field, BoundsOf(MINUTE))
    ensures var r := FieldSet(field, BoundsOf(MINUTE)); r.Ok? && 57 in r.value && exists x :: x in r.value && x < 0
    ensures !Denoted(field, BoundsOf(MINUTE), 57)
  {
    var a, n := LargestSpelled(field);
    LargestStepSpan(field, a, n, BoundsOf(MINUTE));
    LargestStepWraps();
  }

  lemma StarsParse(fields: seq<string>)
    requires |fields| == 5 && IsToken(fields[0]) && FieldSet(fields[0], BoundsOf(MINUTE)).Ok?
    requires forall k: nat :: 1 <= k < 5 ==> fields[k] == "*"
    ensures var r := Parse(Join(fields));
            && r.Ok? && Fields(Join(fields)) == fields
            && r.value.sets[MINUTE] == FieldSet(fields[0], BoundsOf(MINUTE)).value
            && 1 in r.value.sets[MONTH] && r.value.star[DAY_OF_MONTH] && r.value.star[DAY_OF_WEEK]
  {
    forall k: nat | k < 5 ensures IsToken(fields[k]) && FieldSet(fields[k], BoundsOf(k)).Ok? {
      if k > 0 { StarField(fields[k], BoundsOf(k)); }
    }
    FieldsJoin(fields);
    JoinedParses(fields);
    var e := Parse(Join(fields)).value;
    assert FieldDescribes(e, fields[0], 0) && FieldDescribes(e, fields[MONTH], MONTH);
    assert FieldDescribes(e, fields[DAY_OF_MONTH], DAY_OF_MONTH) && FieldDescribes(e, fields[DAY_OF_WEEK], DAY_OF_WEEK);
    StarField(fields[MONTH], BoundsOf(MONTH));
  }

  lemma StarsAround(text: string, field: string) returns (fields: seq<string>)
    requires text == field + " * * * *"
    ensures |fields| == 5 && fields[0] == field && forall k: nat :: 1 <= k < 5 ==> fields[k] == "*"
    ensures Join(fields) == text
  {
    fields := [field, "*", "*", "*", "*"];
    JoinFive(field, "*", "*", "*", "*");
  }

  lemma AnyDayOfJanuary(e: Expr)
    requires FiveFields(e) && 1 in e.sets[MONTH] && e.star[DAY_OF_MONTH] && e.star[DAY_OF_WEEK]
    ensures DateMatches(e, 0)
  {
    DayOfDate(Date(1, 1, 1));
  }

  /** The whole text: it fires on minute 57 of every hour as well, and the search for it is not the scan. */
  lemma LargestStepText(text: string)
    requires text == "59/9223372036854775807" + " * * * *"
    ensures Parse(text).Ok? && 57 in Parse(text).value.sets[MINUTE]
    ensures !AlwaysScans(PatternOf(Parse(text).value))
  {
    var fields := StarsAround(text, "59/9223372036854775807");
    LargestStepField(fields[0]);
    StarsParse(fields);
    SearchIsScanIff(text);
    AnyDayOfJanuary(Parse(text).value);
  }
}
