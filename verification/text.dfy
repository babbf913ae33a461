/**
The string operations the scheduler leans on: splitting around white space,
joining, splitting on one character, trimming, ASCII case and decimal integers
of 64 bits.
*/
module Text {
  import opened Common

  const MAX_INT: int := 0x7FFF_FFFF_FFFF_FFFF
  const MIN_INT: int := -0x8000_0000_0000_0000

  /** Unicode white space. */
  predicate IsSpace(c: char) {
    || '\t' <= c <= '\r' || c == ' ' || c == '\U{85}' || c == '\U{A0}' || c == '\U{1680}'
    || '\U{2000}' <= c <= '\U{200A}' || c == '\U{2028}' || c == '\U{2029}'
    || c == '\U{202F}' || c == '\U{205F}' || c == '\U{3000}'
  }

  predicate IsToken(s: string) {
    s != "" && forall i :: 0 <= i < |s| ==> !IsSpace(s[i])
  }

  predicate AllTokens(ts: seq<string>) {
    forall i :: 0 <= i < |ts| ==> IsToken(ts[i])
  }

  /** How many leading characters are not white space. */
  function TokenLength(s: string): (k: nat)
    ensures k <= |s|
    ensures forall i :: 0 <= i < k ==> !IsSpace(s[i])
    ensures k < |s| ==> IsSpace(s[k])
  {
    if s == "" || IsSpace(s[0]) then 0 else 1 + TokenLength(s[1..])
  }

  /** strings.Fields. */
  function Fields(s: string): (ts: seq<string>)
    ensures AllTokens(ts)
    decreases |s|
  {
    if s == "" then []
    else if IsSpace(s[0]) then Fields(s[1..])
    else
      var k := TokenLength(s);
      [s[..k]] + Fields(s[k..])
  }

  /** strings.Join with a single space. */
  function Join(ts: seq<string>): string {
    if ts == [] then "" else if |ts| == 1 then ts[0] else ts[0] + " " + Join(ts[1..])
  }

  /** The position of the first c, or the length when there is none. */
  function IndexOf(s: string, c: char): (k: nat)
    ensures k <= |s|
    ensures c !in s[..k]
    ensures k < |s| ==> s[k] == c
    ensures k == |s| <==> c !in s
  {
    if s == "" || s[0] == c then 0 else 1 + IndexOf(s[1..], c)
  }

  /** strings.Split on one character. */
  function Split(s: string, c: char): (ts: seq<string>)
    ensures ts != []
    decreases |s|
  {
    var k := IndexOf(s, c);
    if k == |s| then [s] else [s[..k]] + Split(s[k + 1..], c)
  }

  lemma IndexAfter(a: string, c: char, b: string)
    requires c !in a
    ensures IndexOf(a + [c] + b, c) == |a|
    ensures (a + [c] + b)[..|a|] == a && (a + [c] + b)[|a| + 1..] == b
  {
    var s := a + [c] + b;
    assert s[|a|] == c;
    assert forall i :: 0 <= i < |a| ==> s[i] == a[i] && a[i] != c;
    assert forall i :: 0 <= i < IndexOf(s, c) ==> s[i] == s[..IndexOf(s, c)][i] && s[i] != c;
  }

  lemma SplitCons(a: string, c: char, b: string)
    requires c !in a
    ensures Split(a + [c] + b, c) == [a] + Split(b, c)
  {
    IndexAfter(a, c, b);
  }

  lemma JoinCons(ts: seq<string>)
    requires |ts| > 1
    ensures Join(ts) == ts[0] + [' '] + Join(ts[1..])
  {
  }

  /** Splitting on the separator undoes joining. */
  lemma {:induction false} SplitJoin(ts: seq<string>)
    requires ts != []
    requires forall i :: 0 <= i < |ts| ==> ' ' !in ts[i]
    ensures Split(Join(ts), ' ') == ts
  {
    if |ts| == 1 {
      assert Join(ts) == ts[0];
    } else {
      SplitJoin(ts[1..]);
      JoinCons(ts);
      SplitCons(ts[0], ' ', Join(ts[1..]));
      assert ts == [ts[0]] + ts[1..];
    }
  }

  lemma TokenThen(t: string, rest: string)
    requires IsToken(t) && (rest == "" || IsSpace(rest[0]))
    ensures Fields(t + rest) == [t] + Fields(rest)
  {
    var s := t + rest;
    var k := TokenLength(s);
    assert forall i :: 0 <= i < |t| ==> s[i] == t[i] && !IsSpace(s[i]);
    assert rest != "" ==> s[|t|] == rest[0];
    assert s[0] == t[0];
    assert s[..k] == t && s[k..] == rest;
  }

  lemma FieldsCons(t: string, tail: string)
    requires IsToken(t)
    ensures Fields(t + [' '] + tail) == [t] + Fields(tail)
  {
    var rest := [' '] + tail;
    TokenThen(t, rest);
    assert rest[1..] == tail;
    assert t + [' '] + tail == t + rest;
  }

  /** Reading the fields undoes joining. */
  lemma {:induction false} FieldsJoin(ts: seq<string>)
    requires AllTokens(ts)
    ensures Fields(Join(ts)) == ts
  {
    if |ts| == 1 {
      TokenThen(ts[0], "");
      assert ts[0] + "" == ts[0];
    } else if |ts| > 1 {
      FieldsJoin(ts[1..]);
      JoinCons(ts);
      FieldsCons(ts[0], Join(ts[1..]));
      assert ts == [ts[0]] + ts[1..];
    }
  }

  lemma TokensHaveNoSpace(ts: seq<string>)
    requires AllTokens(ts)
    ensures forall i :: 0 <= i < |ts| ==> ' ' !in ts[i]
  {
  }

  // --- integers ---

  predicate IsDigit(c: char) { '0' <= c <= '9' }

  predicate AllDigits(s: string) { forall i :: 0 <= i < |s| ==> IsDigit(s[i]) }

  function Decimal(s: string): nat
    requires AllDigits(s)
  {
    if s == "" then 0 else 10 * Decimal(s[..|s| - 1]) + (s[|s| - 1] as int - '0' as int)
  }

  /** strconv.Atoi: an optional sign, digits, and a value of 64 bits. */
  function Atoi(s: string): (r: Option<int>)
    ensures r.Some? ==> MIN_INT <= r.value <= MAX_INT
  {
    var signed := s != "" && (s[0] == '-' || s[0] == '+');
    var digits := if signed then s[1..] else s;
    if digits == "" || !AllDigits(digits) then None
    else
      var m: int := Decimal(digits);
      var n := if signed && s[0] == '-' then -m else m;
      if MIN_INT <= n <= MAX_INT then Some(n) else None
  }

  /** strconv.Itoa on a natural number. */
  function Itoa(n: nat): (s: string)
    ensures s != ""
  {
    var digit := ('0' as int + n % 10) as char;
    if n < 10 then [digit] else Itoa(n / 10) + [digit]
  }

  /** Reading undoes writing, for every natural number of 64 bits. */
  lemma {:induction false} AtoiItoa(n: nat)
    ensures AllDigits(Itoa(n)) && Decimal(Itoa(n)) == n
    ensures n <= MAX_INT ==> Atoi(Itoa(n)) == Some(n)
  {
    if n >= 10 {
      AtoiItoa(n / 10);
      assert Itoa(n)[..|Itoa(n)| - 1] == Itoa(n / 10);
    } else {
      assert Itoa(n)[..0] == "";
    }
    assert IsDigit(Itoa(n)[0]);
  }

  /** Signs, and numbers past 64 bits. */
  lemma AtoiForms(n: nat)
    ensures n <= MAX_INT ==> Atoi("+" + Itoa(n)) == Some(n)
    ensures n <= MAX_INT + 1 ==> Atoi("-" + Itoa(n)).Some? && Atoi("-" + Itoa(n)).value + n == 0
    ensures n > MAX_INT ==> Atoi(Itoa(n)) == None && Atoi("+" + Itoa(n)) == None
    ensures n > MAX_INT + 1 ==> Atoi("-" + Itoa(n)) == None
    ensures MAX_INT == 9223372036854775807
  {
    AtoiItoa(n);
    assert ("+" + Itoa(n))[1..] == Itoa(n) && ("-" + Itoa(n))[1..] == Itoa(n);
  }

  /** Any of these between two fields separates them as a space does. */
  lemma SpaceSeparates(t: string, c: char, tail: string)
    requires IsToken(t)
    requires c in {'\t', '\n', '\r', ' ', '\U{A0}', '\U{2003}', '\U{3000}'}
    ensures Fields(t + [c] + tail) == [t] + Fields(tail)
  {
    var rest := [c] + tail;
    TokenThen(t, rest);
    assert rest[1..] == tail;
    assert t + [c] + tail == t + rest;
  }

  // --- trimming and case ---

  /** The first index from i on that holds no white space. */
  function SkipSpace(s: string, i: nat): (k: nat)
    requires i <= |s|
    ensures i <= k <= |s| && (k < |s| ==> !IsSpace(s[k]))
    ensures i < |s| && !IsSpace(s[i]) ==> k == i
    decreases |s| - i
  {
    if i == |s| || !IsSpace(s[i]) then i else SkipSpace(s, i + 1)
  }

  /** Going back from j to i, the first end that follows no white space. */
  function DropSpace(s: string, i: nat, j: nat): (k: nat)
    requires i <= j <= |s|
    ensures i <= k <= j && (k > i ==> !IsSpace(s[k - 1]))
    ensures j > i && !IsSpace(s[j - 1]) ==> k == j
    decreases j
  {
    if j == i || !IsSpace(s[j - 1]) then j else DropSpace(s, i, j - 1)
  }

  /** strings.TrimSpace. */
  function TrimSpace(s: string): string {
    var i := SkipSpace(s, 0);
    s[i..DropSpace(s, i, |s|)]
  }

  function LowerChar(c: char): char {
    if 'A' <= c <= 'Z' then c + 32 as char else c
  }

  function UpperChar(c: char): char {
    if 'a' <= c <= 'z' then c - 32 as char else c
  }

  /** strings.ToLower on ASCII. */
  function ToLower(s: string): string {
    seq(|s|, i requires 0 <= i < |s| => LowerChar(s[i]))
  }

  /** strings.ToUpper on ASCII. */
  function ToUpper(s: string): string {
    seq(|s|, i requires 0 <= i < |s| => UpperChar(s[i]))
  }

  /** Nothing at either end is white space. */
  predicate Trimmed(s: string) {
    s == "" || (!IsSpace(s[0]) && !IsSpace(s[|s| - 1]))
  }

  lemma TrimSpaceTrims(s: string)
    ensures Trimmed(TrimSpace(s))
    ensures Trimmed(s) ==> TrimSpace(s) == s
  {
    var i := SkipSpace(s, 0);
    var j := DropSpace(s, i, |s|);
    assert i < j ==> s[i..j][0] == s[i] && s[i..j][j - i - 1] == s[j - 1];
    if Trimmed(s) && s != "" { assert i == 0 && j == |s|; }
  }

  /** The two strings are the same but for the case of letters. */
  ghost predicate SameButCase(a: string, b: string) {
    && |a| == |b|
    && forall i :: 0 <= i < |a| ==>
         || a[i] == b[i]
         || ('A' <= a[i] <= 'Z' && b[i] as int == a[i] as int + 32)
         || ('a' <= a[i] <= 'z' && b[i] as int == a[i] as int - 32)
  }

  /** Lower case has no capital and is the same but for case; so strings agree in it exactly if they are. */
  lemma LowerIff(a: string, b: string)
    ensures SameButCase(a, ToLower(a)) && SameButCase(a, ToUpper(a))
    ensures forall c :: c in ToLower(a) ==> !('A' <= c <= 'Z')
    ensures forall c :: c in ToUpper(a) ==> !('a' <= c <= 'z')
    ensures ToLower(a) == ToLower(b) <==> SameButCase(a, b)
  {
    if ToLower(a) == ToLower(b) {
      forall i | 0 <= i < |a| ensures LowerChar(a[i]) == LowerChar(b[i]) {
        assert ToLower(a)[i] == ToLower(b)[i];
      }
    }
  }

  lemma LowerIsStable(s: string)
    ensures ToLower(ToLower(s)) == ToLower(s)
    ensures Trimmed(s) ==> Trimmed(ToLower(s))
    ensures (ToLower(s) == "") == (s == "")
  {
  }
}
