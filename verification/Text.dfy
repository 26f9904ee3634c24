/** The string operations the daemon's parsers rely on, with the facts about them
    that the parsers' correctness rests on. */
module Text {
  import opened Wrappers

  // ----- Searching -----

  predicate OccursAt(s: string, sub: string, k: nat) {
    k + |sub| <= |s| && forall i :: 0 <= i < |sub| ==> s[k + i] == sub[i]
  }

  /** The first occurrence at or after k, or -1. */
  function IndexFrom(s: string, sub: string, k: nat): (r: int)
    requires k <= |s|
    ensures r == -1 ==> forall j :: k <= j ==> !OccursAt(s, sub, j)
    ensures r != -1 ==> k <= r && OccursAt(s, sub, r) && forall j :: k <= j < r ==> !OccursAt(s, sub, j)
    decreases |s| - k
  {
    if OccursAt(s, sub, k) then k
    else if k == |s| then -1
    else IndexFrom(s, sub, k + 1)
  }

  function Index(s: string, sub: string): (r: int) {
    IndexFrom(s, sub, 0)
  }

  predicate Contains(s: string, sub: string) {
    Index(s, sub) != -1
  }

  lemma OccurrenceIsContained(s: string, sub: string, k: nat)
    requires OccursAt(s, sub, k)
    ensures Contains(s, sub)
  {
  }

  lemma FirstIsIndex(s: string, sub: string, k: nat)
    requires OccursAt(s, sub, k)
    requires forall i: nat :: i < k ==> !OccursAt(s, sub, i)
    ensures Index(s, sub) == k
  {
    OccurrenceIsContained(s, sub, k);
  }

  /** A character that occurs once in a text pins every occurrence of a needle holding it. */
  lemma UniqueCharPins(a: string, c: char, b: string, sub: string, k: nat, j: nat)
    requires c !in a && c !in b && j < |sub| && sub[j] == c
    requires OccursAt(a + [c] + b, sub, k)
    ensures k + j == |a|
  {
    var s := a + [c] + b;
    assert forall i :: 0 <= i < |a| ==> s[i] == a[i];
    assert forall i :: 0 <= i < |b| ==> s[|a| + 1 + i] == b[i];
    assert s[k + j] == c;
  }

  lemma OccursWithin(s: string, lo: nat, hi: nat, sub: string, k: nat)
    requires lo <= hi <= |s| && OccursAt(s[lo..hi], sub, k)
    ensures OccursAt(s, sub, lo + k)
  {
    forall i | 0 <= i < |sub|
      ensures s[lo + k + i] == sub[i]
    {
      assert s[lo..hi][k + i] == sub[i];
    }
  }

  /** An occurrence of a part of the needle goes with an occurrence of the needle. */
  lemma ContainsPart(s: string, sub: string, part: string, j: nat)
    requires Contains(s, sub) && OccursAt(sub, part, j)
    ensures Contains(s, part)
  {
    var k := Index(s, sub);
    forall i | 0 <= i < |part|
      ensures s[k + j + i] == part[i]
    {
      assert s[k + (j + i)] == sub[j + i];
    }
    OccurrenceIsContained(s, part, k + j);
  }

  // ----- Splitting and joining -----

  function Split(s: string, c: char): (parts: seq<string>)
    ensures parts != []
  {
    if s == "" then [""]
    else if s[0] == c then [""] + Split(s[1..], c)
    else var rest := Split(s[1..], c); [[s[0]] + rest[0]] + rest[1..]
  }

  function Join(parts: seq<string>, c: char): string {
    if parts == [] then ""
    else if |parts| == 1 then parts[0]
    else parts[0] + [c] + Join(parts[1..], c)
  }

  lemma {:induction false} SplitWord(w: string, c: char)
    requires c !in w
    ensures Split(w, c) == [w]
  {
    if w != "" {
      SplitWord(w[1..], c);
      assert [w[0]] + w[1..] == w;
    }
  }

  lemma {:induction false} SplitCons(w: string, rest: string, c: char)
    requires c !in w
    ensures Split(w + [c] + rest, c) == [w] + Split(rest, c)
  {
    var s := w + [c] + rest;
    if w == "" {
      assert s[1..] == rest;
    } else {
      SplitCons(w[1..], rest, c);
      assert s[1..] == w[1..] + [c] + rest;
      assert [w[0]] + w[1..] == w;
    }
  }

  /** Splitting undoes joining. */
  lemma {:induction false} SplitJoin(parts: seq<string>, c: char)
    requires parts != [] && forall i :: 0 <= i < |parts| ==> c !in parts[i]
    ensures Split(Join(parts, c), c) == parts
  {
    if |parts| == 1 {
      SplitWord(parts[0], c);
    } else {
      SplitJoin(parts[1..], c);
      SplitCons(parts[0], Join(parts[1..], c), c);
    }
  }

  // ----- Whitespace -----

  predicate IsSpace(c: char) {
    c == ' ' || '\t' <= c <= '\r' || c == '\U{85}' || c == '\U{A0}'
  }

  predicate NoSpace(s: string) {
    forall i :: 0 <= i < |s| ==> !IsSpace(s[i])
  }

  /** The fields of s, when `word` was gathered before it. */
  function FieldsAfter(word: string, s: string): seq<string>
    decreases |s|
  {
    var done := if word == "" then [] else [word];
    if s == "" then done
    else if IsSpace(s[0]) then done + FieldsAfter("", s[1..])
    else FieldsAfter(word + [s[0]], s[1..])
  }

  /** The maximal runs of non-blank characters, in order. */
  function Fields(s: string): seq<string> {
    FieldsAfter("", s)
  }

  lemma FieldsBlank(c: char, rest: string)
    requires IsSpace(c)
    ensures Fields([c] + rest) == Fields(rest)
  {
    assert ([c] + rest)[1..] == rest;
  }

  lemma {:induction false} GatherWord(word: string, t: string, rest: string)
    requires NoSpace(t)
    ensures FieldsAfter(word, t + rest) == FieldsAfter(word + t, rest)
    decreases |t|
  {
    if t == "" {
      assert t + rest == rest && word + t == word;
    } else {
      GatherWord(word + [t[0]], t[1..], rest);
      assert (t + rest)[1..] == t[1..] + rest && word + [t[0]] + t[1..] == word + t;
    }
  }

  lemma FieldsToken(t: string, rest: string)
    requires t != "" && NoSpace(t) && (rest != "" ==> IsSpace(rest[0]))
    ensures Fields(t + rest) == [t] + Fields(rest)
  {
    GatherWord("", t, rest);
    assert "" + t == t;
  }

  /** Every field is a piece of the text. */
  lemma FieldIsContained(s: string, i: nat)
    requires i < |Fields(s)|
    ensures Contains(s, Fields(s)[i])
  {
    var k := FieldOffset("", s, i);
    assert "" + s == s;
    OccurrenceIsContained(s, Fields(s)[i], k);
  }

  lemma {:induction false} FieldOffset(word: string, s: string, i: nat) returns (k: nat)
    requires i < |FieldsAfter(word, s)|
    ensures OccursAt(word + s, FieldsAfter(word, s)[i], k)
    decreases |s|
  {
    if s == "" || (IsSpace(s[0]) && i == 0 && word != "") {
      k := 0;
    } else if IsSpace(s[0]) {
      var skip := if word == "" then 0 else 1;
      k := FieldOffset("", s[1..], i - skip);
      assert (word + s)[|word| + 1..|word + s|] == "" + s[1..];
      OccursWithin(word + s, |word| + 1, |word + s|, FieldsAfter(word, s)[i], k);
      k := k + |word| + 1;
    } else {
      k := FieldOffset(word + [s[0]], s[1..], i);
      assert word + [s[0]] + s[1..] == word + s;
    }
  }

  function TrimLeft(s: string): string {
    if s != "" && IsSpace(s[0]) then TrimLeft(s[1..]) else s
  }

  function TrimRight(s: string): string {
    if s != "" && IsSpace(s[|s| - 1]) then TrimRight(s[..|s| - 1]) else s
  }

  function TrimSpace(s: string): string {
    TrimRight(TrimLeft(s))
  }

  // ----- Decimal numbers -----

  predicate IsDigit(c: char) {
    '0' <= c <= '9'
  }

  predicate AllDigits(s: string) {
    forall i :: 0 <= i < |s| ==> IsDigit(s[i])
  }

  function Decimal(n: nat): (s: string)
    ensures s != "" && AllDigits(s)
  {
    var last := ['0' + (n % 10) as char];
    if n < 10 then last else Decimal(n / 10) + last
  }

  function DigitsValue(s: string): nat
    requires AllDigits(s)
  {
    if s == "" then 0 else DigitsValue(s[..|s| - 1]) * 10 + (s[|s| - 1] - '0') as int
  }

  lemma {:induction false} DecimalValue(n: nat)
    ensures DigitsValue(Decimal(n)) == n
  {
    var s := Decimal(n);
    if n < 10 {
      assert s[..|s| - 1] == "";
    } else {
      DecimalValue(n / 10);
      assert s[..|s| - 1] == Decimal(n / 10);
    }
  }

  /** Different numbers are printed differently. */
  lemma DecimalInjective(m: nat, n: nat)
    requires Decimal(m) == Decimal(n)
    ensures m == n
  {
    DecimalValue(m);
    DecimalValue(n);
  }

  const MAX_INT: int := 0x7fff_ffff_ffff_ffff

  /** strconv.Atoi on a 64-bit platform. */
  function Atoi(s: string): Option<int> {
    var signed := s != "" && (s[0] == '-' || s[0] == '+');
    var body := if signed then s[1..] else s;
    if body == "" || !AllDigits(body) then None
    else
      var v: int := if signed && s[0] == '-' then 0 - DigitsValue(body) else DigitsValue(body);
      if 0 - MAX_INT - 1 <= v <= MAX_INT then Some(v) else None
  }

  lemma AtoiDecimal(n: nat)
    requires n <= MAX_INT
    ensures Atoi(Decimal(n)) == Some(n)
  {
    DecimalValue(n);
    assert IsDigit(Decimal(n)[0]);
  }

  // ----- Image references -----

  /** A reference without ':' gets the tag "latest". */
  function NormalizeRef(ref: string): string {
    if ':' in ref then ref else ref + ":latest"
  }
}
