/** The grammar of one comma part of a cron field, read off the text. */
module CronGrammar {
  import opened Common
  import opened Text
  import opened CronExpr

  /** Position i holds the first dash, and what stands before and after it reads as start and end. */
  ghost predicate DashAt(base: string, i: nat, start: int, end: int) {
    && i < |base| && base[i] == '-' && '-' !in base[..i]
    && Atoi(base[..i]) == Some(start) && Atoi(base[i + 1..]) == Some(end)
  }

  /** The part before the slash: a star, a range or a number, which runs to the maximum if there is a step. */
  ghost predicate BaseReads(base: string, b: Bounds, span: Span) {
    || (base == "*" && span.start == b.min && span.end == b.max)
    || (base != "*" && '-' in base && span.start <= span.end && exists i :: DashAt(base, i, span.start, span.end))
    || (base != "*" && '-' !in base && Atoi(base) == Some(span.start)
        && span.end == if span.step > 1 then b.max else span.start)
  }

  /** base, or base/step with a step of at least one. */
  ghost predicate Reads(part: string, b: Bounds, span: Span) {
    exists base, rest :: IsCut(part, base, rest) && StepReads(rest, span.step) && BaseReads(base, b, span)
  }

  /** base is what comes before the first slash. */
  ghost predicate IsCut(part: string, base: string, rest: string) {
    part == base + rest && '/' !in base && (rest == "" || rest[0] == '/')
  }

  ghost predicate StepReads(rest: string, step: int) {
    if rest == "" then step == 1 else step >= 1 && Atoi(rest[1..]) == Some(step)
  }

  lemma CutIs(part: string, base: string, rest: string)
    requires IsCut(part, base, rest)
    ensures base == part[..IndexOf(part, '/')] && rest == part[IndexOf(part, '/')..]
  {
    if rest == "" {
      assert part == base && part[..|part|] == part;
    } else {
      assert part == base + ['/'] + rest[1..];
      IndexAfter(base, '/', rest[1..]);
    }
  }

  lemma CutExists(part: string)
    ensures IsCut(part, part[..IndexOf(part, '/')], part[IndexOf(part, '/')..])
  {
    var k := IndexOf(part, '/');
    assert part == part[..k] + part[k..];
    assert k < |part| ==> part[k..][0] == part[k];
  }

  lemma RangeReads(base: string, step: int, b: Bounds, span: Span)
    requires span.step == step
    ensures RangeOf(base, step, b) == Ok(span) <==> BaseReads(base, b, span)
  {
    if base != "*" && '-' in base { DashReads(base, step, b, span); }
  }

  lemma FirstDash(base: string, i: nat)
    requires i < |base| && base[i] == '-' && '-' !in base[..i]
    ensures i == IndexOf(base, '-')
  {
    assert base == base[..i] + ['-'] + base[i + 1..];
    IndexAfter(base[..i], '-', base[i + 1..]);
  }

  lemma DashReads(base: string, step: int, b: Bounds, span: Span)
    requires span.step == step && '-' in base && base != "*"
    ensures RangeOf(base, step, b) == Ok(span)
            <==> span.start <= span.end && exists i :: DashAt(base, i, span.start, span.end)
  {
    var k := IndexOf(base, '-');
    if i: nat :| DashAt(base, i, span.start, span.end) {
      FirstDash(base, i);
    }
    if Atoi(base[..k]) == Some(span.start) && Atoi(base[k + 1..]) == Some(span.end) {
      assert DashAt(base, k, span.start, span.end);
    }
  }

  lemma StepIs(part: string, step: int)
    ensures StepOf(part) == Ok(step) <==> StepReads(part[IndexOf(part, '/')..], step)
  {
    var k := IndexOf(part, '/');
    if k < |part| {
      assert part[k..][1..] == part[k + 1..];
    }
  }

  /**
  A part is accepted, and means start, end and step, exactly when it reads so and
  lies within the field's bounds.
  */
  lemma PartReadsIff(part: string, b: Bounds, span: Span)
    requires SaneBounds(b)
    ensures SpanOf(part, b) == Ok(span)
            <==> part != "" && Reads(part, b, span) && b.min <= span.start && span.end <= b.max
  {
    var base, rest := part[..IndexOf(part, '/')], part[IndexOf(part, '/')..];
    CutExists(part);
    ReadsCut(part, base, rest, b, span);
    StepIs(part, span.step);
    RangeReads(base, span.step, b, span);
    SpanIs(part, base, b, span);
  }

  /** Only the cut at the first slash counts. */
  lemma ReadsCut(part: string, base: string, rest: string, b: Bounds, span: Span)
    requires IsCut(part, base, rest)
    ensures Reads(part, b, span) <==> StepReads(rest, span.step) && BaseReads(base, b, span)
  {
    CutIs(part, base, rest);
    if Reads(part, b, span) {
      var x, y :| IsCut(part, x, y) && StepReads(y, span.step) && BaseReads(x, b, span);
      CutIs(part, x, y);
    }
  }

  lemma SpanIs(part: string, base: string, b: Bounds, span: Span)
    requires SaneBounds(b) && base == part[..IndexOf(part, '/')]
    ensures SpanOf(part, b) == Ok(span)
            <==> part != "" && StepOf(part) == Ok(span.step) && RangeOf(base, span.step, b) == Ok(span)
                 && b.min <= span.start && span.end <= b.max
  {
    if StepOf(part).Ok? { RangeStep(base, StepOf(part).value, b); }
  }

  lemma RangeStep(base: string, step: int, b: Bounds)
    ensures RangeOf(base, step, b).Ok? ==> RangeOf(base, step, b).value.step == step
  {
  }
}
