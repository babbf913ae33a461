/**
What a declaration or a form turns into: defaults, validation, and the record
that is stored. Headers of a declaration are its map's entries in key order.
*/
module JobInput {
  import opened Common
  import opened Domain
  import opened Text
  import CronExpr

  datatype Header = Header(key: string, value: string, secret: bool)

  datatype Request = Request(verb: string, url: string, body: string)

  datatype Limits = Limits(
    timeout: int, maxDuration: int, retries: int, maxDelay: int, priority: int, successMin: int, successMax: int)

  datatype Flags = Flags(singleRun: bool, runMissed: bool, active: bool)

  datatype Labels = Labels(name: string, description: string, tag: string)

  /** What the jobs row, job_schedules and job_headers hold for a job, apart from ids and times. */
  datatype Stored = Stored(
    labels: Labels, request: Request, limits: Limits, flags: Flags, notification: Option<int>,
    schedules: seq<string>, headers: seq<Header>)

  /** None for headers leaves the stored ones alone. */
  datatype Input = Input(
    code: string, labels: Labels, request: Request, limits: Limits, flags: Flags, notification: Option<int>,
    schedules: seq<string>, headers: Option<seq<Header>>)

  /** One chain link by target code. */
  datatype LinkIn = LinkIn(target: string, condition: string, delay: int)

  /** A declared job; None for schedules, headers and flags means not mentioned. */
  datatype Decl = Decl(
    code: string, labels: Labels, request: Request, schedules: Option<seq<string>>,
    headers: Option<seq<(string, string)>>, limits: Limits,
    singleRun: Option<bool>, runMissed: Option<bool>, active: Option<bool>, links: seq<LinkIn>)

  /**
  The checks that look at addresses, header text and the order of codes. An
  address is resolved against its project's; None when there is no such project.
  */
  datatype Rules = Rules(
    urlOk: Option<string -> bool>, headerName: string -> bool, headerValue: string -> bool,
    codeBefore: (string, string) -> bool)

  // --- from a declaration to an input ---

  function ResolveBool(explicit: Option<bool>, stored: Option<bool>, fallback: bool): bool {
    if explicit.Some? then explicit.value else if stored.Some? then stored.value else fallback
  }

  function Kept(declared: int, stored: Option<int>): int {
    if declared == 0 && stored.Some? then stored.value else declared
  }

  function KeptText(declared: string, stored: Option<string>): string {
    if declared == "" && stored.Some? then stored.value else declared
  }

  function Map<T, U>(o: Option<T>, f: T -> U): Option<U> {
    if o.None? then None else Some(f(o.value))
  }

  function DeclaredSchedules(d: Decl): seq<string> {
    if d.schedules.None? then [] else d.schedules.value
  }

  function HeaderInputs(hs: seq<(string, string)>): seq<Header> {
    if hs == [] then []
    else HeaderInputs(hs[..|hs| - 1]) + [Header(hs[|hs| - 1].0, hs[|hs| - 1].1, false)]
  }

  function InLabels(d: Decl, stored: Option<Labels>): Labels {
    Labels(KeptText(d.labels.name, Map(stored, (l: Labels) => l.name)), d.labels.description,
           KeptText(d.labels.tag, Map(stored, (l: Labels) => l.tag)))
  }

  function InLimits(d: Decl, stored: Option<Limits>): Limits {
    d.limits.(timeout := Kept(d.limits.timeout, Map(stored, (l: Limits) => l.timeout)),
              maxDuration := Kept(d.limits.maxDuration, Map(stored, (l: Limits) => l.maxDuration)),
              priority := Kept(d.limits.priority, Map(stored, (l: Limits) => l.priority)))
  }

  function InFlags(d: Decl, stored: Option<Flags>): Flags {
    Flags(ResolveBool(d.singleRun, Map(stored, (f: Flags) => f.singleRun), true),
          ResolveBool(d.runMissed, Map(stored, (f: Flags) => f.runMissed), false),
          ResolveBool(d.active, Map(stored, (f: Flags) => f.active), |DeclaredSchedules(d)| > 0))
  }

  /** Set what is declared, keep what is stored, else leave it to the defaults. */
  function ToInput(d: Decl, existing: Option<Stored>): Input {
    Input(
      d.code,
      InLabels(d, Map(existing, (s: Stored) => s.labels)),
      d.request,
      InLimits(d, Map(existing, (s: Stored) => s.limits)),
      InFlags(d, Map(existing, (s: Stored) => s.flags)),
      if existing.Some? then existing.value.notification else None,
      DeclaredSchedules(d),
      if d.headers.None? then None else Some(HeaderInputs(d.headers.value)))
  }

  // --- defaults ---

  function NormalCode(code: string): string {
    ToLower(TrimSpace(code))
  }

  function Or(n: int, fallback: int): int {
    if n == 0 then fallback else n
  }

  function DefaultMaxDuration(timeout: int): int {
    if timeout * 10 < 300 then 300 else if timeout * 10 > 86400 then 86400 else timeout * 10
  }

  function DefaultLimits(l: Limits): Limits {
    var timeout := Or(l.timeout, DEFAULT_TIMEOUT_SEC);
    Limits(timeout, Or(l.maxDuration, DefaultMaxDuration(timeout)), l.retries, Or(l.maxDelay, 10), Or(l.priority, 100),
           Or(l.successMin, 200), Or(l.successMax, 399))
  }

  function DefaultRequest(r: Request): Request {
    var verb := ToUpper(TrimSpace(r.verb));
    Request(if verb == "" then "GET" else verb, TrimSpace(r.url), r.body)
  }

  function DefaultLabels(l: Labels, code: string): Labels {
    var name := TrimSpace(l.name);
    Labels(if name == "" then code else name, l.description, TrimSpace(l.tag))
  }

  function Normal(text: string): string {
    Join(Fields(text))
  }

  /** Normalised, empty lines dropped. */
  function Cleaned(schedules: seq<string>): seq<string> {
    if schedules == [] then []
    else
      var last := Normal(schedules[|schedules| - 1]);
      Cleaned(schedules[..|schedules| - 1]) + if last == "" then [] else [last]
  }

  function Defaults(i: Input): Input {
    var code := NormalCode(i.code);
    i.(code := code, labels := DefaultLabels(i.labels, code), request := DefaultRequest(i.request),
       limits := DefaultLimits(i.limits), schedules := Cleaned(i.schedules))
  }

  method CleanSchedules(schedules: seq<string>) returns (cleaned: seq<string>)
    ensures cleaned == Cleaned(schedules)
  {
    cleaned := [];
    for i := 0 to |schedules|
      invariant cleaned == Cleaned(schedules[..i])
    {
      assert schedules[..i + 1][..i] == schedules[..i];
      var normalized := Join(Fields(schedules[i]));
      if normalized != "" { cleaned := cleaned + [normalized]; }
    }
    assert schedules[..|schedules|] == schedules;
  }

  // --- validation ---

  predicate IsCodeChar(c: char) {
    'a' <= c <= 'z' || '0' <= c <= '9' || c == '_' || c == '-'
  }

  predicate ValidSlug(s: string) {
    && 2 <= |s| <= 64
    && ('a' <= s[0] <= 'z' || '0' <= s[0] <= '9')
    && forall i :: 0 <= i < |s| ==> IsCodeChar(s[i])
  }

  predicate AllowedMethod(m: string) {
    m == "GET" || m == "POST" || m == "PUT" || m == "PATCH" || m == "DELETE" || m == "HEAD"
  }

  function If(failed: bool, field: string): seq<string> {
    if failed then [field] else []
  }

  function LabelErrors(i: Input, isNew: bool): seq<string> {
    If(isNew && !ValidSlug(i.code), "code") + If(i.labels.name == "", "name") + If(|i.labels.name| > 200, "name")
  }

  function RequestErrors(rules: Rules, r: Request): seq<string> {
    If(!AllowedMethod(r.verb), "method")
    + if rules.urlOk.None? then ["project_id"] else If(!rules.urlOk.value(r.url), "url")
  }

  function LimitErrors(l: Limits): seq<string> {
    If(l.timeout < MIN_TIMEOUT_SEC || l.timeout > MAX_TIMEOUT_SEC, "timeout_sec")
    + If(l.maxDuration < l.timeout, "max_duration_sec")
    + If(l.retries < 0 || l.retries > 5, "retries")
    + If(l.maxDelay < 0 || l.maxDelay > 1440, "max_delay_min")
    + If(l.successMin < 100 || l.successMin > 599 || l.successMax < 100 || l.successMax > 599, "success_min")
    + If(l.successMax < l.successMin, "success_max")
  }

  predicate Parses(text: string) {
    CronExpr.Parse(text).Ok?
  }

  function ScheduleErrors(parses: string -> bool, schedules: seq<string>): seq<string> {
    if schedules == [] then []
    else
      ScheduleErrors(parses, schedules[..|schedules| - 1]) + If(!parses(schedules[|schedules| - 1]), "schedules")
  }

  /** A header with neither a key nor a value is passed over. */
  function HeaderError(rules: Rules, h: Header): seq<string> {
    if TrimSpace(h.key) == "" && TrimSpace(h.value) == "" then []
    else If(!rules.headerName(TrimSpace(h.key)), "headers.key") + If(!rules.headerValue(h.value), "headers.value")
  }

  function HeaderErrors(rules: Rules, headers: seq<Header>): seq<string> {
    if headers == [] then []
    else HeaderErrors(rules, headers[..|headers| - 1]) + HeaderError(rules, headers[|headers| - 1])
  }

  function InputHeaders(i: Input): seq<Header> {
    if i.headers.None? then [] else i.headers.value
  }

  /** Every rule an input breaks, by field; the input already has its defaults. */
  function Errors(rules: Rules, i: Input, isNew: bool): seq<string> {
    LabelErrors(i, isNew) + RequestErrors(rules, i.request) + LimitErrors(i.limits)
    + ScheduleErrors(Parses, i.schedules) + HeaderErrors(rules, InputHeaders(i))
  }

  method CheckSchedules(schedules: seq<string>) returns (errors: seq<string>)
    ensures errors == ScheduleErrors(Parses, schedules)
  {
    errors := [];
    for k := 0 to |schedules|
      invariant errors == ScheduleErrors(Parses, schedules[..k])
    {
      assert schedules[..k + 1][..k] == schedules[..k];
      var parsed := CronExpr.ParseText(schedules[k]);
      assert Parses(schedules[k]) == parsed.Ok?;
      if parsed.Err? { errors := errors + ["schedules"]; }
    }
    assert schedules[..|schedules|] == schedules;
  }

  method CheckHeader(rules: Rules, h: Header) returns (errors: seq<string>)
    ensures errors == HeaderError(rules, h)
  {
    errors := [];
    var key := TrimSpace(h.key);
    if key == "" && TrimSpace(h.value) == "" { return; }
    if !rules.headerName(key) { errors := errors + ["headers.key"]; }
    if !rules.headerValue(h.value) { errors := errors + ["headers.value"]; }
  }

  method CheckHeaders(rules: Rules, headers: seq<Header>) returns (errors: seq<string>)
    ensures errors == HeaderErrors(rules, headers)
  {
    errors := [];
    for k := 0 to |headers|
      invariant errors == HeaderErrors(rules, headers[..k])
    {
      assert headers[..k + 1][..k] == headers[..k];
      var more := CheckHeader(rules, headers[k]);
      errors := errors + more;
    }
    assert headers[..|headers|] == headers;
  }

  /** Fills in the defaults, then collects every failure. */
  method Validate(rules: Rules, i: Input, isNew: bool) returns (filled: Input, errors: seq<string>)
    ensures filled == Defaults(i) && errors == Errors(rules, filled, isNew)
  {
    var code := NormalCode(i.code);
    var schedules := CleanSchedules(i.schedules);
    filled := i.(code := code, labels := DefaultLabels(i.labels, code), request := DefaultRequest(i.request),
                 limits := DefaultLimits(i.limits), schedules := schedules);
    var more := CheckSchedules(filled.schedules);
    var last := CheckHeaders(rules, InputHeaders(filled));
    errors := LabelErrors(filled, isNew) + RequestErrors(rules, filled.request) + LimitErrors(filled.limits)
              + more + last;
  }

  /** The column checks of the jobs table. */
  predicate SchemaOk(r: Request, l: Limits) {
    && AllowedMethod(r.verb)
    && 1 <= l.timeout <= 600 && 1 <= l.maxDuration <= 86400 && 0 <= l.retries <= 5 && 0 <= l.maxDelay <= 1440
    && 100 <= l.successMin <= 599 && 100 <= l.successMax <= 599
    && l.successMax >= l.successMin && l.maxDuration >= l.timeout
  }

  /** What passes validation also passes the table's checks, except for a watchdog limit over a day. */
  lemma SchemaAgreesIff(rules: Rules, i: Input, isNew: bool)
    ensures Errors(rules, i, isNew) == [] ==> (SchemaOk(i.request, i.limits) <==> i.limits.maxDuration <= 86400)
  {
    assert Errors(rules, i, isNew) == [] ==> RequestErrors(rules, i.request) == [] && LimitErrors(i.limits) == [];
  }

  /** Rules that find nothing wrong with any address or header. */
  function Lenient(): Rules {
    Rules(Some((url: string) => true), (name: string) => true, (value: string) => true, (a: string, b: string) => false)
  }

  /** A job with only a code and a watchdog limit. */
  function Bare(maxDuration: int): Input {
    Input("job", Labels("", "", ""), Request("", "", ""), Limits(0, maxDuration, 0, 0, 0, 0, 0),
          Flags(true, false, true), None, [], None)
  }

  lemma BareFilled(maxDuration: int)
    requires maxDuration != 0
    ensures Defaults(Bare(maxDuration))
            == Bare(maxDuration).(labels := Labels("job", "", ""), request := Request("GET", "", ""),
                                  limits := Limits(30, maxDuration, 0, 10, 100, 200, 399))
  {
    assert TrimSpace("") == "" && ToUpper("") == "";
    assert TrimSpace("job") == "job" && ToLower("job") == "job";
  }

  /** A job whose watchdog limit is a day and a second passes validation, and the table refuses it. */
  lemma LongLimitAccepted()
    ensures Errors(Lenient(), Defaults(Bare(86401)), true) == []
    ensures !SchemaOk(Defaults(Bare(86401)).request, Defaults(Bare(86401)).limits)
  {
    BareFilled(86401);
  }

  // --- what is stored ---

  /** Insert, where a repeated expression conflicts with the one there. */
  function Expressions(schedules: seq<string>): seq<string> {
    if schedules == [] then []
    else
      var before, last := Expressions(schedules[..|schedules| - 1]), Normal(schedules[|schedules| - 1]);
      if last == "" || last in before then before else before + [last]
  }

  function SameHeaderAt(hs: seq<Header>, key: string): (i: nat)
    ensures i <= |hs| && (i < |hs| ==> ToLower(hs[i].key) == ToLower(key))
  {
    if hs == [] then 0 else if ToLower(hs[0].key) == ToLower(key) then 0 else 1 + SameHeaderAt(hs[1..], key)
  }

  /** Insert, where a key that differs in case only gets the new value and keeps its spelling. */
  function PutHeader(hs: seq<Header>, h: Header): seq<Header> {
    var i := SameHeaderAt(hs, h.key);
    if i < |hs| then hs[i := Header(hs[i].key, h.value, h.secret)] else hs + [h]
  }

  function StoredHeaders(headers: seq<Header>): seq<Header> {
    if headers == [] then []
    else
      var before, last := StoredHeaders(headers[..|headers| - 1]), headers[|headers| - 1];
      if TrimSpace(last.key) == "" then before else PutHeader(before, last.(key := TrimSpace(last.key)))
  }

  /** The record an input with its defaults leaves, over what was there. */
  function Store(i: Input, existing: Option<Stored>): Stored {
    Stored(i.labels, i.request, i.limits, i.flags, i.notification, Expressions(i.schedules),
           if i.headers.Some? then StoredHeaders(i.headers.value)
           else if existing.Some? then existing.value.headers else [])
  }

  /** What applying a declaration leaves for its job; None when it is refused, and then nothing is written. */
  function Declare(rules: Rules, d: Decl, existing: Option<Stored>): Option<Stored> {
    var i := Defaults(ToInput(d, existing));
    if Errors(rules, i, existing.None?) == [] && SchemaOk(i.request, i.limits) then Some(Store(i, existing)) else None
  }

  function Filled(trim: string -> string, name: string, fallback: string): string {
    if trim(name) == "" then fallback else trim(name)
  }

  lemma NameTwice(trim: string -> string, declared: string, stored: Option<string>, code: string)
    requires trim(code) == code && forall x :: trim(trim(x)) == trim(x)
    ensures var first := Filled(trim, KeptText(declared, stored), code);
            Filled(trim, KeptText(declared, Some(first)), code) == first
  {
  }

  lemma TrimTwice(x: string)
    ensures TrimSpace(TrimSpace(x)) == TrimSpace(x)
  {
    TrimSpaceTrims(x);
    TrimSpaceTrims(TrimSpace(x));
  }

  lemma CodeTrimmed(code: string)
    ensures TrimSpace(NormalCode(code)) == NormalCode(code)
    ensures NormalCode(NormalCode(code)) == NormalCode(code) && ToLower(NormalCode(code)) == NormalCode(code)
  {
    TrimSpaceTrims(code);
    LowerIsStable(TrimSpace(code));
    TrimSpaceTrims(NormalCode(code));
  }

  lemma LabelsTwice(d: Decl, stored: Option<Labels>)
    ensures var code := NormalCode(d.code);
            var first := DefaultLabels(InLabels(d, stored), code);
            DefaultLabels(InLabels(d, Some(first)), code) == first
  {
    var code := NormalCode(d.code);
    var trim := (x: string) => TrimSpace(x);
    forall x ensures trim(trim(x)) == trim(x) { TrimTwice(x); }
    CodeTrimmed(d.code);
    NameTwice(trim, d.labels.name, Map(stored, (l: Labels) => l.name), code);
    TagTwice(trim, d.labels.tag, Map(stored, (l: Labels) => l.tag));
  }

  lemma TagTwice(trim: string -> string, declared: string, stored: Option<string>)
    requires forall x :: trim(trim(x)) == trim(x)
    ensures var first := trim(KeptText(declared, stored));
            trim(KeptText(declared, Some(first))) == first
  {
  }

  lemma LimitsTwice(d: Decl, stored: Option<Limits>)
    requires LimitErrors(DefaultLimits(InLimits(d, stored))) == []
    ensures var first := DefaultLimits(InLimits(d, stored));
            DefaultLimits(InLimits(d, Some(first))) == first
  {
  }

  /** The same declaration over the record it left asks for the same again. */
  lemma InputTwice(d: Decl, existing: Option<Stored>, first: Stored)
    requires first.labels == DefaultLabels(InLabels(d, Map(existing, (s: Stored) => s.labels)), NormalCode(d.code))
    requires first.limits == DefaultLimits(InLimits(d, Map(existing, (s: Stored) => s.limits)))
    requires first.flags == InFlags(d, Map(existing, (s: Stored) => s.flags)) && LimitErrors(first.limits) == []
    requires first.notification == if existing.Some? then existing.value.notification else None
    ensures Defaults(ToInput(d, Some(first))) == Defaults(ToInput(d, existing))
  {
    LabelsTwice(d, Map(existing, (s: Stored) => s.labels));
    LimitsTwice(d, Map(existing, (s: Stored) => s.limits));
  }

  lemma NewIsStricter(rules: Rules, i: Input, isNew: bool)
    ensures Errors(rules, i, isNew) == [] ==> Errors(rules, i, false) == [] && LimitErrors(i.limits) == []
  {
  }

  /** Declaring the same job again leaves the record as the first time left it. */
  lemma DeclareTwice(rules: Rules, d: Decl, existing: Option<Stored>)
    ensures var first := Declare(rules, d, existing);
            first.Some? ==> Declare(rules, d, first) == first
  {
    var first := Declare(rules, d, existing);
    var i := Defaults(ToInput(d, existing));
    if first.Some? {
      NewIsStricter(rules, i, existing.None?);
      InputTwice(d, existing, first.value);
    }
  }

  /** Schedules a declaration does not mention are cleared, also for a job that had some. */
  lemma OmittedSchedulesCleared(rules: Rules, d: Decl, existing: Stored)
    ensures var result := Declare(rules, d, Some(existing));
            d.schedules.None? && result.Some? ==> result.value.schedules == []
  {
  }

  /** A declaration that mentions no schedules, and a record of its job with one. */
  function Unscheduled(): Decl {
    Decl("job", Labels("job", "", ""), Request("GET", "", ""), None, None, Limits(30, 300, 0, 10, 100, 200, 399),
         None, None, None, [])
  }

  function Recorded(schedules: seq<string>): Stored {
    Stored(Labels("job", "", ""), Request("GET", "", ""), Limits(30, 300, 0, 10, 100, 200, 399),
           Flags(true, false, true), None, schedules, [])
  }

  lemma UnscheduledFilled(schedules: seq<string>)
    ensures var i := Defaults(ToInput(Unscheduled(), Some(Recorded(schedules))));
            && i.labels == Recorded([]).labels && i.request == Recorded([]).request && i.limits == Recorded([]).limits
            && i.flags == Recorded([]).flags && i.notification == None && i.schedules == [] && i.headers == None
  {
    assert TrimSpace("") == "" && TrimSpace("job") == "job" && ToLower("job") == "job";
    assert TrimSpace("GET") == "GET" && ToUpper("GET") == "GET";
  }

  /** It is accepted, and a job that ran every minute runs no more. */
  lemma EveryMinuteCleared()
    ensures Declare(Lenient(), Unscheduled(), Some(Recorded(["* * * * *"]))) == Some(Recorded([]))
  {
    UnscheduledFilled(["* * * * *"]);
  }
}
