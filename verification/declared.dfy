/**
What a declared job becomes: when a declaration is accepted, and what its record
then holds, field by field, in terms of what was declared and what was stored.
*/
module Declared {
  import opened Common
  import opened Text
  import opened JobInput
  import CronExpr

  /** A number that is declared, else stored, else the default; zero stands for neither. */
  function Chosen(declared: int, stored: int, fallback: int): int {
    if declared != 0 then declared else if stored != 0 then stored else fallback
  }

  /** Nothing stored counts as zeros. */
  function StoredLimits(existing: Option<Stored>): Limits {
    match existing
    case Some(was) => was.limits
    case None => Limits(0, 0, 0, 0, 0, 0, 0)
  }

  function TimeoutOf(d: Decl, existing: Option<Stored>): int {
    Chosen(d.limits.timeout, StoredLimits(existing).timeout, 30)
  }

  /** Ten times the timeout, at least five minutes and at most a day. */
  function WatchdogOf(d: Decl, existing: Option<Stored>): int {
    Chosen(d.limits.maxDuration, StoredLimits(existing).maxDuration,
           if TimeoutOf(d, existing) <= 30 then 300
           else if TimeoutOf(d, existing) >= 8640 then 86400
           else 10 * TimeoutOf(d, existing))
  }

  /** Timeout, watchdog and priority are kept when not declared; the other numbers fall back to their defaults. */
  ghost predicate HasLimits(d: Decl, existing: Option<Stored>, l: Limits) {
    && l.timeout == TimeoutOf(d, existing) && l.maxDuration == WatchdogOf(d, existing)
    && l.priority == Chosen(d.limits.priority, StoredLimits(existing).priority, 100)
    && l.retries == d.limits.retries
    && l.maxDelay == Chosen(d.limits.maxDelay, 0, 10)
    && l.successMin == Chosen(d.limits.successMin, 0, 200) && l.successMax == Chosen(d.limits.successMax, 0, 399)
  }

  /** A flag that is mentioned is stored as mentioned; one that is not keeps its value, or gets that of a new job. */
  ghost predicate HasFlag(declared: Option<bool>, known: bool, stored: bool, initial: bool, flag: bool) {
    && (declared.Some? ==> flag == declared.value)
    && (declared.None? && known ==> flag == stored)
    && (declared.None? && !known ==> flag == initial)
  }

  /** A new job is single_run, does not catch up, and is active if it has a schedule. */
  ghost predicate HasFlags(d: Decl, existing: Option<Stored>, f: Flags) {
    var known := existing.Some?;
    && HasFlag(d.singleRun, known, known && existing.value.flags.singleRun, true, f.singleRun)
    && HasFlag(d.runMissed, known, known && existing.value.flags.runMissed, false, f.runMissed)
    && HasFlag(d.active, known, known && existing.value.flags.active,
               d.schedules.Some? && |d.schedules.value| > 0, f.active)
  }

  /** A name or tag that is not declared keeps the stored one; a job without a name is called by its code. */
  ghost predicate HasLabels(d: Decl, existing: Option<Stored>, l: Labels) {
    var name := TrimSpace(if d.labels.name == "" && existing.Some? then existing.value.labels.name else d.labels.name);
    && l.name == (if name == "" then ToLower(TrimSpace(d.code)) else name)
    && l.description == d.labels.description
    && l.tag == TrimSpace(if d.labels.tag == "" && existing.Some? then existing.value.labels.tag else d.labels.tag)
  }

  ghost predicate HasRequest(d: Decl, r: Request) {
    && r.url == TrimSpace(d.request.url) && r.body == d.request.body
    && r.verb == if TrimSpace(d.request.verb) == "" then "GET" else ToUpper(TrimSpace(d.request.verb))
  }

  /**
  The stored expressions are the declared ones, white space normalised, each once
  and in the order they first come up; none if none is declared.
  */
  ghost predicate HasSchedules(d: Decl, schedules: seq<string>) {
    && (forall x :: x in schedules <==>
          x != "" && d.schedules.Some?
          && exists i :: 0 <= i < |d.schedules.value| && Join(Fields(d.schedules.value[i])) == x)
    && (forall i, j :: 0 <= i < j < |schedules| ==> schedules[i] != schedules[j])
    && (d.schedules.Some? ==>
          forall i, j :: 0 <= i < j < |schedules| ==> ComesFirst(d.schedules.value, schedules[i], schedules[j]))
  }

  /** Some line is the expression x before any is y. */
  ghost predicate ComesFirst(lines: seq<string>, x: string, y: string) {
    exists k :: 0 <= k < |lines| && Join(Fields(lines[k])) == x
                && forall l :: 0 <= l <= k ==> Join(Fields(lines[l])) != y
  }

  // --- the record ---

  lemma LimitsAre(d: Decl, existing: Option<Stored>)
    ensures HasLimits(d, existing, DefaultLimits(InLimits(d, Map(existing, (s: Stored) => s.limits))))
  {
  }

  lemma FlagsAre(d: Decl, existing: Option<Stored>)
    ensures HasFlags(d, existing, InFlags(d, Map(existing, (s: Stored) => s.flags)))
  {
  }

  lemma LabelsAre(d: Decl, existing: Option<Stored>)
    ensures var declared := InLabels(d, Map(existing, (s: Stored) => s.labels));
            HasLabels(d, existing, DefaultLabels(declared, NormalCode(d.code)))
  {
  }

  lemma RequestIs(d: Decl)
    ensures HasRequest(d, DefaultRequest(d.request))
  {
    assert TrimSpace(d.request.verb) == "" <==> ToUpper(TrimSpace(d.request.verb)) == "";
  }

  lemma NormalTwice(text: string)
    ensures Normal(Normal(text)) == Normal(text)
  {
    FieldsJoin(Fields(text));
  }

  lemma {:induction false} CleanedIff(schedules: seq<string>, x: string)
    ensures x in Cleaned(schedules) <==> x != "" && exists i :: 0 <= i < |schedules| && Normal(schedules[i]) == x
  {
    if schedules != [] {
      var n := |schedules| - 1;
      CleanedIff(schedules[..n], x);
      assert forall i :: 0 <= i < n ==> schedules[..n][i] == schedules[i];
    }
  }

  lemma {:induction false} ExpressionsIff(schedules: seq<string>, x: string)
    ensures x in Expressions(schedules) <==> x != "" && exists i :: 0 <= i < |schedules| && Normal(schedules[i]) == x
  {
    if schedules != [] {
      var n := |schedules| - 1;
      ExpressionsIff(schedules[..n], x);
      assert forall i :: 0 <= i < n ==> schedules[..n][i] == schedules[i];
    }
  }

  lemma {:induction false} ExpressionsDiffer(schedules: seq<string>)
    ensures forall i, j ::
              0 <= i < j < |Expressions(schedules)| ==> Expressions(schedules)[i] != Expressions(schedules)[j]
  {
    if schedules != [] { ExpressionsDiffer(schedules[..|schedules| - 1]); }
  }

  lemma OneMoreExpression(before: seq<string>, text: string)
    ensures Expressions(before + [text])
            == if Normal(text) == "" || Normal(text) in Expressions(before) then Expressions(before)
               else Expressions(before) + [Normal(text)]
  {
    assert (before + [text])[..|before|] == before;
  }

  lemma OneMoreCleaned(before: seq<string>, text: string)
    ensures Cleaned(before + [text]) == Cleaned(before) + if Normal(text) == "" then [] else [Normal(text)]
  {
    assert (before + [text])[..|before|] == before;
  }

  ghost predicate CleanedSame(lines: seq<string>) {
    Expressions(Cleaned(lines)) == Expressions(lines)
  }

  /** One more line gives the same expressions, cleaned or not. */
  lemma CleanedStep(before: seq<string>, text: string)
    requires CleanedSame(before)
    ensures CleanedSame(before + [text])
  {
    var last := Normal(text);
    OneMoreCleaned(before, text);
    OneMoreExpression(before, text);
    NormalTwice(text);
    if last == "" {
      assert Cleaned(before) + [] == Cleaned(before);
    } else {
      OneMoreExpression(Cleaned(before), last);
    }
  }

  lemma CleanedSteps(p: seq<string> -> bool)
    requires forall lines :: p(lines) <==> CleanedSame(lines)
    ensures p([]) && forall before: seq<string>, last: string :: p(before) ==> p(before + [last])
  {
    forall before: seq<string>, last: string | p(before) ensures p(before + [last]) { CleanedStep(before, last); }
    assert CleanedSame([]);
  }

  lemma CleanedFirst(lines: seq<string>)
    ensures CleanedSame(lines)
  {
    var p := (ls: seq<string>) => CleanedSame(ls);
    CleanedSteps(p);
    OneByOne(p, lines);
    assert p(lines);
  }

  lemma FirstStays(lines: seq<string>, more: string, x: string, y: string)
    ensures ComesFirst(lines, x, y) ==> ComesFirst(lines + [more], x, y)
  {
    if ComesFirst(lines, x, y) {
      var k :| 0 <= k < |lines| && Join(Fields(lines[k])) == x
               && forall l :: 0 <= l <= k ==> Join(Fields(lines[l])) != y;
      assert (lines + [more])[k] == lines[k];
      forall l | 0 <= l <= k ensures Join(Fields((lines + [more])[l])) != y {
        assert (lines + [more])[l] == lines[l];
      }
    }
  }

  lemma {:induction false} ExpressionsInOrder(lines: seq<string>, i: nat, j: nat)
    requires i < j < |Expressions(lines)|
    ensures ComesFirst(lines, Expressions(lines)[i], Expressions(lines)[j])
  {
    var n := |lines| - 1;
    var before, x, y := Expressions(lines[..n]), Expressions(lines)[i], Expressions(lines)[j];
    assert lines == lines[..n] + [lines[n]];
    if j < |before| {
      ExpressionsInOrder(lines[..n], i, j);
    } else {
      assert x in before && y !in before;
      ExpressionsIff(lines[..n], x);
      ExpressionsIff(lines[..n], y);
      var k :| 0 <= k < n && Normal(lines[..n][k]) == x;
      forall l | 0 <= l <= k ensures Join(Fields(lines[..n][l])) != y {
        assert Normal(lines[..n][l]) == Join(Fields(lines[..n][l]));
      }
    }
    FirstStays(lines[..n], lines[n], x, y);
  }

  lemma SchedulesAre(d: Decl)
    ensures HasSchedules(d, Expressions(Cleaned(DeclaredSchedules(d))))
  {
    var lines := DeclaredSchedules(d);
    var cleaned := Cleaned(lines);
    ExpressionsDiffer(cleaned);
    CleanedFirst(lines);
    forall i, j | 0 <= i < j < |Expressions(lines)|
      ensures ComesFirst(lines, Expressions(lines)[i], Expressions(lines)[j])
    {
      ExpressionsInOrder(lines, i, j);
    }
    forall x ensures x in Expressions(cleaned)
                     <==> x != "" && exists i :: 0 <= i < |lines| && Join(Fields(lines[i])) == x
    {
      ExpressionsIff(cleaned, x);
      CleanedIff(lines, x);
      if i :| 0 <= i < |cleaned| && Normal(cleaned[i]) == x {
        CleanedIff(lines, cleaned[i]);
        var k :| 0 <= k < |lines| && Normal(lines[k]) == cleaned[i];
        NormalTwice(lines[k]);
      }
      if x in cleaned {
        var k :| 0 <= k < |lines| && Normal(lines[k]) == x;
        NormalTwice(lines[k]);
        var i :| 0 <= i < |cleaned| && cleaned[i] == x;
      }
    }
  }

  // --- the headers ---

  /** The last entry whose key is meant. */
  ghost predicate LastWith(hs: seq<(string, string)>, meant: string -> bool, value: string) {
    exists i :: 0 <= i < |hs| && hs[i].1 == value && meant(hs[i].0) && forall j :: i < j < |hs| ==> !meant(hs[j].0)
  }

  /** The last declared entry of a key, white space around it and case aside. */
  ghost predicate LastOf(hs: seq<(string, string)>, key: string, value: string) {
    LastWith(hs, written => SameKey(written, key), value)
  }

  predicate SameKey(written: string, key: string) {
    TrimSpace(written) != "" && ToLower(TrimSpace(written)) == ToLower(key)
  }

  ghost predicate HasHeader(stored: seq<Header>, key: string, value: string) {
    exists i :: 0 <= i < |stored| && ToLower(stored[i].key) == ToLower(key) && stored[i].value == value
  }

  ghost predicate KeysDiffer(stored: seq<Header>) {
    forall i, j :: 0 <= i < j < |stored| ==> ToLower(stored[i].key) != ToLower(stored[j].key)
  }

  lemma {:induction false} FirstAt(hs: seq<Header>, key: string)
    ensures forall j :: 0 <= j < SameHeaderAt(hs, key) ==> ToLower(hs[j].key) != ToLower(key)
  {
    if hs != [] && ToLower(hs[0].key) != ToLower(key) { FirstAt(hs[1..], key); }
  }

  lemma PutOne(hs: seq<Header>, h: Header, key: string, value: string)
    requires KeysDiffer(hs)
    ensures KeysDiffer(PutHeader(hs, h))
    ensures HasHeader(PutHeader(hs, h), key, value)
            <==> if ToLower(h.key) == ToLower(key) then value == h.value else HasHeader(hs, key, value)
  {
    FirstAt(hs, h.key);
    var i, after := SameHeaderAt(hs, h.key), PutHeader(hs, h);
    if HasHeader(hs, key, value) && ToLower(h.key) != ToLower(key) {
      var k :| 0 <= k < |hs| && ToLower(hs[k].key) == ToLower(key) && hs[k].value == value;
      assert after[k] == hs[k];
    }
    if ToLower(h.key) == ToLower(key) {
      assert after[i].value == h.value && ToLower(after[i].key) == ToLower(key);
    }
  }

  lemma LastWithOneMore(hs: seq<(string, string)>, meant: string -> bool, value: string)
    requires hs != []
    ensures var n := |hs| - 1;
            LastWith(hs, meant, value) <==> if meant(hs[n].0) then value == hs[n].1 else LastWith(hs[..n], meant, value)
  {
    var n := |hs| - 1;
    var before := hs[..n];
    assert forall i :: 0 <= i < n ==> before[i] == hs[i];
    if LastWith(before, meant, value) && !meant(hs[n].0) {
      var i :| 0 <= i < n && before[i].1 == value && meant(before[i].0)
               && forall j :: i < j < n ==> !meant(before[j].0);
      assert hs[i].1 == value && meant(hs[i].0);
      forall j | i < j < |hs| ensures !meant(hs[j].0) { assert j < n ==> !meant(before[j].0); }
    }
    if LastWith(hs, meant, value) && !meant(hs[n].0) {
      var i :| 0 <= i < |hs| && hs[i].1 == value && meant(hs[i].0) && forall j :: i < j < |hs| ==> !meant(hs[j].0);
      assert before[i].1 == value && meant(before[i].0);
      forall j | i < j < n ensures !meant(before[j].0) { assert !meant(hs[j].0); }
    }
  }

  lemma {:induction false} InputsAre(hs: seq<(string, string)>)
    ensures |HeaderInputs(hs)| == |hs|
    ensures hs != [] ==>
              var n := |hs| - 1;
              HeaderInputs(hs)[..n] == HeaderInputs(hs[..n]) && HeaderInputs(hs)[n] == Header(hs[n].0, hs[n].1, false)
  {
    if hs != [] { InputsAre(hs[..|hs| - 1]); }
  }

  /** What the store holds of one key after one more header. */
  lemma StoreOneMore(headers: seq<Header>, h: Header, key: string, value: string)
    requires KeysDiffer(StoredHeaders(headers))
    ensures var after := StoredHeaders(headers + [h]);
            && KeysDiffer(after)
            && (HasHeader(after, key, value)
                <==> if SameKey(h.key, key) then value == h.value else HasHeader(StoredHeaders(headers), key, value))
  {
    assert (headers + [h])[..|headers|] == headers;
    if TrimSpace(h.key) != "" { PutOne(StoredHeaders(headers), h.(key := TrimSpace(h.key)), key, value); }
  }

  lemma {:induction false} HeadersAre(hs: seq<(string, string)>, key: string, value: string)
    ensures KeysDiffer(StoredHeaders(HeaderInputs(hs)))
    ensures HasHeader(StoredHeaders(HeaderInputs(hs)), key, value) <==> LastOf(hs, key, value)
  {
    if hs != [] {
      var n := |hs| - 1;
      HeadersAre(hs[..n], key, value);
      LastWithOneMore(hs, written => SameKey(written, key), value);
      StoreOneMore(HeaderInputs(hs[..n]), Header(hs[n].0, hs[n].1, false), key, value);
    }
  }

  /** A stored header is spelled as the first declared entry of its key, and is not secret. */
  ghost predicate IsSpelled(hs: seq<(string, string)>, h: Header) {
    && !h.secret
    && exists i :: 0 <= i < |hs| && TrimSpace(hs[i].0) == h.key && forall j :: 0 <= j < i ==> !SameKey(hs[j].0, h.key)
  }

  lemma SpellingStays(hs: seq<(string, string)>, more: (string, string), h: Header, value: string)
    requires IsSpelled(hs, h)
    ensures IsSpelled(hs + [more], Header(h.key, value, false))
  {
    var i :| 0 <= i < |hs| && TrimSpace(hs[i].0) == h.key && forall j :: 0 <= j < i ==> !SameKey(hs[j].0, h.key);
    var after := hs + [more];
    assert after[i] == hs[i];
    forall j | 0 <= j < i ensures !SameKey(after[j].0, h.key) { assert after[j] == hs[j]; }
  }

  ghost predicate HasKey(stored: seq<Header>, key: string) {
    exists i :: 0 <= i < |stored| && ToLower(stored[i].key) == ToLower(key)
  }

  lemma KeyPut(hs: seq<Header>, h: Header, key: string)
    ensures HasKey(hs, key) || ToLower(h.key) == ToLower(key) ==> HasKey(PutHeader(hs, h), key)
  {
    var at, after := SameHeaderAt(hs, h.key), PutHeader(hs, h);
    if HasKey(hs, key) {
      var i :| 0 <= i < |hs| && ToLower(hs[i].key) == ToLower(key);
      assert ToLower(after[i].key) == ToLower(key);
    }
    if ToLower(h.key) == ToLower(key) { assert ToLower(after[at].key) == ToLower(key); }
  }

  lemma KeyOneMore(headers: seq<Header>, h: Header, key: string)
    ensures HasKey(StoredHeaders(headers), key) || SameKey(h.key, key) ==> HasKey(StoredHeaders(headers + [h]), key)
  {
    assert (headers + [h])[..|headers|] == headers;
    if TrimSpace(h.key) != "" { KeyPut(StoredHeaders(headers), h.(key := TrimSpace(h.key)), key); }
  }

  lemma InputsOneMore(before: seq<(string, string)>, last: (string, string))
    ensures HeaderInputs(before + [last]) == HeaderInputs(before) + [Header(last.0, last.1, false)]
  {
    assert (before + [last])[..|before|] == before;
  }

  lemma KeyStep(before: seq<(string, string)>, last: (string, string), key: string)
    requires HasKey(StoredHeaders(HeaderInputs(before)), key) || SameKey(last.0, key)
    ensures HasKey(StoredHeaders(HeaderInputs(before + [last])), key)
  {
    InputsOneMore(before, last);
    KeyOneMore(HeaderInputs(before), Header(last.0, last.1, false), key);
  }

  lemma {:induction false} KeyIsStored(hs: seq<(string, string)>, key: string, j: nat, n: nat)
    requires j < n <= |hs| && SameKey(hs[j].0, key)
    ensures HasKey(StoredHeaders(HeaderInputs(hs[..n])), key)
  {
    if j < n - 1 { KeyIsStored(hs, key, j, n - 1); }
    KeyStep(hs[..n - 1], hs[n - 1], key);
    assert hs[..n] == hs[..n - 1] + [hs[n - 1]];
  }

  ghost predicate AllSpelled(hs: seq<(string, string)>) {
    var stored := StoredHeaders(HeaderInputs(hs)); forall k :: 0 <= k < |stored| ==> IsSpelled(hs, stored[k])
  }

  lemma StoredStep(before: seq<(string, string)>, last: (string, string))
    ensures var stored := StoredHeaders(HeaderInputs(before));
            StoredHeaders(HeaderInputs(before + [last]))
            == if TrimSpace(last.0) == "" then stored else PutHeader(stored, Header(TrimSpace(last.0), last.1, false))
  {
    InputsOneMore(before, last);
    var inputs, h := HeaderInputs(before), Header(last.0, last.1, false);
    assert (inputs + [h])[..|inputs|] == inputs;
  }

  lemma SpellingStep(before: seq<(string, string)>, last: (string, string))
    requires AllSpelled(before)
    ensures AllSpelled(before + [last])
  {
    StoredStep(before, last);
    var stored, after := StoredHeaders(HeaderInputs(before)), StoredHeaders(HeaderInputs(before + [last]));
    forall k | 0 <= k < |after| ensures IsSpelled(before + [last], after[k]) {
      if k < |stored| {
        assert IsSpelled(before, stored[k]);
        SpellingStays(before, last, stored[k], after[k].value);
      } else {
        NewSpelling(before, last);
      }
    }
  }

  lemma SpellingSteps(p: seq<(string, string)> -> bool)
    requires forall hs :: p(hs) <==> AllSpelled(hs)
    ensures p([]) && forall before: seq<(string, string)>, last: (string, string) :: p(before) ==> p(before + [last])
  {
    forall before: seq<(string, string)>, last: (string, string) | p(before) ensures p(before + [last]) {
      SpellingStep(before, last);
    }
    assert AllSpelled([]);
  }

  lemma SpellingIs(hs: seq<(string, string)>)
    ensures AllSpelled(hs)
  {
    var p := (es: seq<(string, string)>) => AllSpelled(es);
    SpellingSteps(p);
    OneByOne(p, hs);
    assert p(hs);
  }

  /** A key that is not stored yet was not declared before. */
  lemma NewSpelling(before: seq<(string, string)>, last: (string, string))
    requires TrimSpace(last.0) != ""
    requires var stored := StoredHeaders(HeaderInputs(before)); SameHeaderAt(stored, TrimSpace(last.0)) == |stored|
    ensures IsSpelled(before + [last], Header(TrimSpace(last.0), last.1, false))
  {
    var key, hs := TrimSpace(last.0), before + [last];
    FirstAt(StoredHeaders(HeaderInputs(before)), key);
    assert hs[|before|] == last;
    forall j | 0 <= j < |before| ensures !SameKey(hs[j].0, key) {
      assert hs[j] == before[j] && before[..|before|] == before;
      if SameKey(before[j].0, key) { KeyIsStored(before, key, j, |before|); }
    }
  }

  /** Headers that are not declared stay; declared ones replace them, the last of a key counting. */
  ghost predicate HasHeaders(d: Decl, existing: Option<Stored>, stored: seq<Header>) {
    if d.headers.None? then stored == if existing.Some? then existing.value.headers else []
    else
      KeysDiffer(stored) && (forall k :: 0 <= k < |stored| ==> IsSpelled(d.headers.value, stored[k]))
      && forall key, value :: HasHeader(stored, key, value) <==> LastOf(d.headers.value, key, value)
  }

  /**
  What an accepted declaration leaves of its job: set what is declared, keep what
  is stored, else the default of a new job; the notification stays.
  */
  lemma DeclaredRecord(rules: Rules, d: Decl, existing: Option<Stored>)
    ensures var r := Declare(rules, d, existing);
            r.Some? ==>
              && HasFlags(d, existing, r.value.flags) && HasLimits(d, existing, r.value.limits)
              && HasLabels(d, existing, r.value.labels) && HasRequest(d, r.value.request)
              && HasSchedules(d, r.value.schedules) && HasHeaders(d, existing, r.value.headers)
              && r.value.notification == if existing.Some? then existing.value.notification else None
  {
    var r := Declare(rules, d, existing);
    if r.Some? {
      LimitsAre(d, existing);
      FlagsAre(d, existing);
      LabelsAre(d, existing);
      RequestIs(d);
      SchedulesAre(d);
      if d.headers.Some? {
        forall key, value ensures HasHeader(r.value.headers, key, value) <==> LastOf(d.headers.value, key, value) {
          HeadersAre(d.headers.value, key, value);
        }
        HeadersAre(d.headers.value, "", "");
        SpellingIs(d.headers.value);
      }
    }
  }

  // --- when it is accepted ---

  /** A code of 2 to 64 lower-case letters, digits, dashes and underscores that starts with a letter or a digit. */
  ghost predicate GoodCode(code: string) {
    && 2 <= |code| <= 64 && code[0] != '_' && code[0] != '-'
    && forall c :: c in code ==> 'a' <= c <= 'z' || '0' <= c <= '9' || c == '_' || c == '-'
  }

  lemma GoodCodeIff(code: string)
    ensures GoodCode(code) <==> ValidSlug(code)
  {
    assert forall i :: 0 <= i < |code| ==> code[i] in code;
  }

  ghost predicate GoodLimits(l: Limits) {
    && 1 <= l.timeout <= 600 && l.timeout <= l.maxDuration <= 86400
    && 0 <= l.retries <= 5 && 0 <= l.maxDelay <= 1440
    && 100 <= l.successMin <= l.successMax <= 599
  }

  /** An entry without a key and a value is passed over; any other has a good key and a good value. */
  ghost predicate GoodHeader(rules: Rules, key: string, value: string) {
    (TrimSpace(key) == "" && TrimSpace(value) == "") || (rules.headerName(TrimSpace(key)) && rules.headerValue(value))
  }

  ghost predicate GoodEntries(rules: Rules, hs: seq<(string, string)>) {
    forall i :: 0 <= i < |hs| ==> GoodHeader(rules, hs[i].0, hs[i].1)
  }

  ghost predicate GoodHeaders(rules: Rules, d: Decl) {
    d.headers.Some? ==> GoodEntries(rules, d.headers.value)
  }

  ghost predicate GoodSchedules(d: Decl) {
    d.schedules.Some? ==> forall i :: 0 <= i < |d.schedules.value| ==>
      Fields(d.schedules.value[i]) == [] || CronExpr.Parse(d.schedules.value[i]).Ok?
  }

  lemma {:induction false} NoScheduleErrors(parses: string -> bool, schedules: seq<string>)
    ensures ScheduleErrors(parses, schedules) == [] <==> forall i :: 0 <= i < |schedules| ==> parses(schedules[i])
  {
    if schedules != [] {
      var n := |schedules| - 1;
      NoScheduleErrors(parses, schedules[..n]);
      assert forall i :: 0 <= i < n ==> schedules[..n][i] == schedules[i];
    }
  }

  lemma ParsesNormal(text: string)
    ensures Parses(Normal(text)) <==> Parses(text)
    ensures Normal(text) == "" <==> Fields(text) == []
  {
    CronExpr.ParseReadsFields(text);
    CronExpr.ParseReadsFields(Normal(text));
    FieldsJoin(Fields(text));
  }

  lemma SchedulesAccepted(d: Decl)
    ensures ScheduleErrors(Parses, Cleaned(DeclaredSchedules(d))) == [] <==> GoodSchedules(d)
  {
    var lines := DeclaredSchedules(d);
    var cleaned := Cleaned(lines);
    NoScheduleErrors(Parses, cleaned);
    forall i | 0 <= i < |cleaned| && GoodSchedules(d) ensures Parses(cleaned[i]) {
      CleanedIff(lines, cleaned[i]);
      var k :| 0 <= k < |lines| && Normal(lines[k]) == cleaned[i];
      ParsesNormal(lines[k]);
    }
    forall k | 0 <= k < |lines| && ScheduleErrors(Parses, cleaned) == []
      ensures Fields(lines[k]) == [] || CronExpr.Parse(lines[k]).Ok?
    {
      ParsesNormal(lines[k]);
      CleanedIff(lines, Normal(lines[k]));
      if Fields(lines[k]) != [] {
        var i :| 0 <= i < |cleaned| && cleaned[i] == Normal(lines[k]);
        assert Parses(cleaned[i]);
      }
    }
  }

  lemma HeaderStep(rules: Rules, before: seq<(string, string)>, last: (string, string))
    requires HeaderErrors(rules, HeaderInputs(before)) == [] <==> GoodEntries(rules, before)
    ensures HeaderErrors(rules, HeaderInputs(before + [last])) == [] <==> GoodEntries(rules, before + [last])
  {
    var h, inputs, hs := Header(last.0, last.1, false), HeaderInputs(before), before + [last];
    InputsOneMore(before, last);
    assert (inputs + [h])[..|inputs|] == inputs;
    assert HeaderError(rules, h) == [] <==> GoodHeader(rules, last.0, last.1);
    assert hs[|before|] == last && forall i :: 0 <= i < |before| ==> hs[i] == before[i];
  }

  lemma NoHeaderErrors(rules: Rules, hs: seq<(string, string)>)
    ensures HeaderErrors(rules, HeaderInputs(hs)) == [] <==> GoodEntries(rules, hs)
  {
    var agree := (es: seq<(string, string)>) => HeaderErrors(rules, HeaderInputs(es)) == [] <==> GoodEntries(rules, es);
    forall before, last | agree(before) ensures agree(before + [last]) { HeaderStep(rules, before, last); }
    OneByOne(agree, hs);
  }

  lemma HeadersAccepted(rules: Rules, d: Decl, existing: Option<Stored>)
    ensures HeaderErrors(rules, InputHeaders(Defaults(ToInput(d, existing)))) == [] <==> GoodHeaders(rules, d)
  {
    if d.headers.Some? { NoHeaderErrors(rules, d.headers.value); }
  }

  ghost predicate GoodRequest(rules: Rules, r: Request) {
    && r.verb in {"GET", "POST", "PUT", "PATCH", "DELETE", "HEAD"}
    && rules.urlOk.Some? && rules.urlOk.value(r.url)
  }

  /** What validation looks at: the declared and kept values, with their defaults. */
  lemma FilledInput(d: Decl, existing: Option<Stored>)
    ensures var i := Defaults(ToInput(d, existing));
            HasLabels(d, existing, i.labels) && HasLimits(d, existing, i.limits) && HasRequest(d, i.request)
  {
    LimitsAre(d, existing);
    LabelsAre(d, existing);
    RequestIs(d);
  }

  /**
  Exactly when a declaration is accepted. The code is looked at for a new job
  only, the project has to exist, and its address rules have to take the url.
  */
  lemma DeclareAcceptedIff(rules: Rules, d: Decl, existing: Option<Stored>)
    ensures var i := Defaults(ToInput(d, existing));
            Declare(rules, d, existing).Some?
            <==> && (existing.None? ==> GoodCode(ToLower(TrimSpace(d.code))))
                 && 1 <= |i.labels.name| <= 200 && GoodLimits(i.limits) && GoodRequest(rules, i.request)
                 && GoodSchedules(d) && GoodHeaders(rules, d)
  {
    var i := Defaults(ToInput(d, existing));
    GoodCodeIff(NormalCode(d.code));
    SchedulesAccepted(d);
    HeadersAccepted(rules, d, existing);
    ErrorsSplit(rules, i, existing.None?);
    LimitsChecked(i.limits);
    RequestChecked(rules, i.request);
    assert SchemaOk(i.request, i.limits) <==> AllowedMethod(i.request.verb) && GoodLimits(i.limits);
  }

  lemma RequestChecked(rules: Rules, r: Request)
    ensures RequestErrors(rules, r) == [] <==> GoodRequest(rules, r)
    ensures GoodRequest(rules, r) ==> AllowedMethod(r.verb)
  {
  }

  lemma ErrorsSplit(rules: Rules, i: Input, isNew: bool)
    ensures Errors(rules, i, isNew) == []
            <==> && LabelErrors(i, isNew) == [] && RequestErrors(rules, i.request) == [] && LimitErrors(i.limits) == []
                 && ScheduleErrors(Parses, i.schedules) == [] && HeaderErrors(rules, InputHeaders(i)) == []
  {
  }

  lemma LimitsChecked(l: Limits)
    ensures LimitErrors(l) == [] && l.maxDuration <= 86400 <==> GoodLimits(l)
  {
  }
}
