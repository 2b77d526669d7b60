/** The version order of shared/version.ts and the capabilities inferred from it
  (shared/agentVersionCapabilities.ts).

  String.prototype.localeCompare is a parameter; all that is assumed of it is that it is a total preorder. */
module Versions {

  import opened Options
  import opened Text

  datatype Parsed = Parsed(parts: seq<nat>, prerelease: seq<string>)

  type Comparison = (string, string) -> int

  // ---------------------------------------------------------------- parsing

  predicate IsDigit(c: char) {
    '0' <= c <= '9'
  }

  predicate IsNumber(s: string) {
    s != "" && forall i :: 0 <= i < |s| ==> IsDigit(s[i])
  }

  function DigitValue(c: char): nat {
    if IsDigit(c) then c as int - '0' as int else 0
  }

  /** The value of a text of digits. */
  function ToNat(s: string): nat {
    if s == "" then 0 else ToNat(s[..|s| - 1]) * 10 + DigitValue(s[|s| - 1])
  }

  predicate IsPrereleaseChar(c: char) {
    IsDigit(c) || 'A' <= c <= 'Z' || 'a' <= c <= 'z' || c == '.' || c == '-'
  }

  /** The position of the first '-' in s, or its length. */
  function FirstDash(s: string): (k: nat)
    ensures k <= |s|
  {
    if s == "" || s[0] == '-' then 0 else 1 + FirstDash(s[1..])
  }

  function Numbers(texts: seq<string>): (r: seq<nat>)
    ensures |r| == |texts|
  {
    seq(|texts|, i requires 0 <= i < |texts| => ToNat(texts[i]))
  }

  /** The source's parseHermesVersion: an optional v, one to four numbers, an optional prerelease. */
  function Parse(value: string): (p: Option<Parsed>)
    ensures p.Some? ==> 1 <= |p.value.parts| <= 4
  {
    ParseBody(Unprefixed(Trim(value)))
  }

  function Unprefixed(t: string): string {
    if t != "" && t[0] == 'v' then t[1..] else t
  }

  function ParseBody(u: string): (p: Option<Parsed>)
    ensures p.Some? ==> 1 <= |p.value.parts| <= 4
  {
    var dash := FirstDash(u);
    var parts := Split(u[..dash], '.');
    if |parts| > 4 || !(forall i :: 0 <= i < |parts| ==> IsNumber(parts[i])) then None
    else if dash == |u| then Some(Parsed(Numbers(parts), []))
    else
      var rest := u[dash + 1..];
      if rest == "" || !(forall i :: 0 <= i < |rest| ==> IsPrereleaseChar(rest[i])) then None
      else Some(Parsed(Numbers(parts), Split(rest, '.')))
  }

  // ---------------------------------------------------------------- writing

  /** The decimal digits of n. */
  function Digits(n: nat): string {
    (if n < 10 then "" else Digits(n / 10)) + [(n % 10 + '0' as int) as char]
  }

  lemma {:induction false} DigitsRoundTrip(n: nat)
    ensures IsNumber(Digits(n)) && ToNat(Digits(n)) == n
  {
    var front, last := if n < 10 then "" else Digits(n / 10), (n % 10 + '0' as int) as char;
    if n >= 10 {
      DigitsRoundTrip(n / 10);
    }
    assert Digits(n) == front + [last];
    assert (front + [last])[..|front|] == front;
  }

  /** A version as it is written down. */
  function Written(v: bool, numbers: seq<string>, ids: seq<string>): string {
    (if v then "v" else "") + Join(numbers, '.') + if ids == [] then "" else "-" + Join(ids, '.')
  }

  /** Identifiers that can stand behind the dash: none, or some that are not all of them one empty text. */
  predicate AreIds(ids: seq<string>) {
    && (forall k :: 0 <= k < |ids| ==> '.' !in ids[k] && AllPrerelease(ids[k]))
    && (ids != [] ==> Join(ids, '.') != "")
  }

  predicate AllPrerelease(s: string) {
    forall i :: 0 <= i < |s| ==>
      '0' <= s[i] <= '9' || 'A' <= s[i] <= 'Z' || 'a' <= s[i] <= 'z' || s[i] == '.' || s[i] == '-'
  }

  predicate AreNumbers(numbers: seq<string>) {
    1 <= |numbers| <= 4 && forall k :: 0 <= k < |numbers| ==> AllDigits(numbers[k])
  }

  predicate AllDigits(s: string) {
    s != "" && forall i :: 0 <= i < |s| ==> '0' <= s[i] <= '9'
  }

  /** What is written is read: every number by its value and every identifier as it stands, with and without v. */
  lemma WrittenIsParsed(v: bool, numbers: seq<string>, ids: seq<string>)
    requires AreNumbers(numbers) && AreIds(ids)
    ensures Parse(Written(v, numbers, ids)) == Some(Parsed(Numbers(numbers), ids))
  {
    hide *;
    WrittenHasNoSpace(v, numbers, ids);
    TrimOfNoSpace(Written(v, numbers, ids));
    UnprefixedWritten(v, numbers, ids);
    BodyIsParsed(numbers, ids);
    ParseOf(Written(v, numbers, ids));
  }

  lemma ParseOf(value: string)
    ensures Parse(value) == ParseBody(Unprefixed(Trim(value)))
  {
    hide ParseBody, Trim, Unprefixed;
  }

  lemma UnprefixedWritten(v: bool, numbers: seq<string>, ids: seq<string>)
    requires AreNumbers(numbers)
    ensures Unprefixed(Written(v, numbers, ids)) == Written(false, numbers, ids)
  {
    NumberChars(numbers);
    hide Join;
    var all := Written(false, numbers, ids);
    assert all[0] == Join(numbers, '.')[0];
    if v {
      assert Written(v, numbers, ids) == "v" + all;
    }
  }

  lemma BodyIsParsed(numbers: seq<string>, ids: seq<string>)
    requires AreNumbers(numbers) && AreIds(ids)
    ensures ParseBody(Written(false, numbers, ids)) == Some(Parsed(Numbers(numbers), ids))
  {
    hide Split, Join, FirstDash, ToNat, Numbers;
    var u, front := Written(false, numbers, ids), Join(numbers, '.');
    NumberChars(numbers);
    NoDot(numbers);
    SplitOfJoin(numbers, '.');
    if ids == [] {
      DashAfter(front, "");
      assert u == front && front + "" == front && u[..|front|] == front;
    } else {
      DashAfter(front, "-" + Join(ids, '.'));
      assert u == front + ("-" + Join(ids, '.'));
      assert u[..|front|] == front && u[|front| + 1..] == Join(ids, '.');
      IdChars(ids);
      SplitOfJoin(ids, '.');
    }
  }

  lemma NoDot(numbers: seq<string>)
    requires AreNumbers(numbers)
    ensures forall k :: 0 <= k < |numbers| ==> '.' !in numbers[k]
  {
  }

  function DigitsOf(parts: seq<nat>): seq<string> {
    seq(|parts|, i requires 0 <= i < |parts| => Digits(parts[i]))
  }

  lemma NumbersOfDigits(parts: seq<nat>)
    requires 1 <= |parts| <= 4
    ensures AreNumbers(DigitsOf(parts)) && Numbers(DigitsOf(parts)) == parts
  {
    hide Digits, ToNat;
    forall k | 0 <= k < |parts| ensures IsNumber(DigitsOf(parts)[k]) && ToNat(DigitsOf(parts)[k]) == parts[k] {
      DigitsRoundTrip(parts[k]);
    }
  }

  /** Writing numbers and identifiers and parsing them gives them back. */
  lemma ParsedRoundTrip(v: bool, parts: seq<nat>, ids: seq<string>)
    requires 1 <= |parts| <= 4 && AreIds(ids)
    ensures Parse(Written(v, DigitsOf(parts), ids)) == Some(Parsed(parts, ids))
  {
    hide *;
    NumbersOfDigits(parts);
    WrittenIsParsed(v, DigitsOf(parts), ids);
  }

  /** And nothing else is a version: what can be parsed is, but for spaces around it, written in this form. */
  lemma ParsedIsWritten(value: string)
    requires Parse(value).Some?
    ensures exists v, numbers ::
              && AreNumbers(numbers) && AreIds(Parse(value).value.prerelease)
              && Numbers(numbers) == Parse(value).value.parts
              && Trim(value) == Written(v, numbers, Parse(value).value.prerelease)
  {
    hide *;
    ParseOf(value);
    var t := Trim(value);
    var numbers := BodyIsWritten(Unprefixed(t));
    var ids := Parse(value).value.prerelease;
    UnprefixedIs(t, numbers, ids);
    assert t == Written(Unprefixed(t) != t, numbers, ids);
  }

  lemma UnprefixedIs(t: string, numbers: seq<string>, ids: seq<string>)
    requires Unprefixed(t) == Written(false, numbers, ids)
    ensures t == Written(Unprefixed(t) != t, numbers, ids)
  {
    hide Join;
    if Unprefixed(t) != t {
      assert t == "v" + Unprefixed(t);
      assert Written(true, numbers, ids) == "v" + Written(false, numbers, ids);
    }
  }

  lemma BodyIsWritten(u: string) returns (numbers: seq<string>)
    requires ParseBody(u).Some?
    ensures AreNumbers(numbers) && AreIds(ParseBody(u).value.prerelease)
    ensures Numbers(numbers) == ParseBody(u).value.parts
    ensures u == Written(false, numbers, ParseBody(u).value.prerelease)
  {
    hide Split, Join, FirstDash, ToNat, Numbers;
    var dash := FirstDash(u);
    numbers := Split(u[..dash], '.');
    JoinOfSplit(u[..dash], '.');
    DashIsThere(u);
    if dash < |u| {
      var rest := u[dash + 1..];
      JoinOfSplit(rest, '.');
      assert u == u[..dash] + ("-" + rest);
      SplitChars(rest);
    } else {
      assert u[..dash] == u;
    }
  }

  lemma {:induction false} SplitChars(s: string)
    requires AllPrerelease(s)
    ensures forall k :: 0 <= k < |Split(s, '.')| ==> AllPrerelease(Split(s, '.')[k])
  {
    if s != "" {
      SplitChars(s[1..]);
    }
  }

  lemma DashIsThere(s: string)
    ensures FirstDash(s) < |s| ==> s[FirstDash(s)] == '-'
  {
  }

  lemma {:induction false} DashAfter(front: string, rest: string)
    requires '-' !in front && (rest == "" || rest[0] == '-')
    ensures FirstDash(front + rest) == |front|
  {
    if front == "" {
      assert front + rest == rest;
    } else {
      DashAfter(front[1..], rest);
      assert (front + rest)[1..] == front[1..] + rest;
    }
  }

  /** Numbers joined by points begin with a digit and hold nothing but digits and points. */
  lemma NumberChars(numbers: seq<string>)
    requires AreNumbers(numbers)
    ensures var s := Join(numbers, '.');
            s != "" && IsDigit(s[0]) && forall c :: c in s ==> c == '.' || IsDigit(c)
  {
    var s := Join(numbers, '.');
    assert s[0] == numbers[0][0];
    hide Join;
    forall c | c in s ensures c == '.' || IsDigit(c) {
      var i :| 0 <= i < |s| && s[i] == c;
      JoinedChars(numbers, '.', i);
    }
  }

  lemma IdChars(ids: seq<string>)
    requires AreIds(ids)
    ensures AllPrerelease(Join(ids, '.'))
  {
    hide Join;
    forall i | 0 <= i < |Join(ids, '.')| ensures IsPrereleaseChar(Join(ids, '.')[i]) {
      JoinedChars(ids, '.', i);
    }
  }

  lemma WrittenHasNoSpace(v: bool, numbers: seq<string>, ids: seq<string>)
    requires AreNumbers(numbers) && AreIds(ids)
    ensures forall c :: c in Written(v, numbers, ids) ==> !IsSpace(c)
  {
    hide Join;
    NumberChars(numbers);
    IdChars(ids);
  }

  lemma TrimOfNoSpace(s: string)
    requires forall c :: c in s ==> !IsSpace(c)
    ensures Trim(s) == s
  {
    hide IsSpace;
  }

  // ---------------------------------------------------------------- comparing

  function Part(p: Parsed, i: nat): nat {
    if i < |p.parts| then p.parts[i] else 0
  }

  /** Look further only if nothing has been decided. */
  function Then(first: int, second: int): int {
    if first != 0 then first else second
  }

  function CompareParts(a: Parsed, b: Parsed, i: nat): int
    requires i <= 4
    decreases 4 - i
  {
    if i == 4 then 0 else Then(Part(a, i) - Part(b, i), CompareParts(a, b, i + 1))
  }

  /** Numbers come before words; numbers compare by value, everything else as text. */
  function CompareIds(locale: Comparison, a: string, b: string): int {
    if IsNumber(a) && IsNumber(b) then Then(ToNat(a) - ToNat(b), locale(a, b))
    else if IsNumber(a) then -1
    else if IsNumber(b) then 1
    else locale(a, b)
  }

  function CompareLists(locale: Comparison, a: seq<string>, b: seq<string>): int {
    if a == [] && b == [] then 0
    else if a == [] then -1
    else if b == [] then 1
    else Then(CompareIds(locale, a[0], b[0]), CompareLists(locale, a[1..], b[1..]))
  }

  /** A release comes after its prereleases. */
  function CompareRelease(a: seq<string>, b: seq<string>): int {
    if a == [] && b != [] then 1 else if a != [] && b == [] then -1 else 0
  }

  function CompareParsed(locale: Comparison, a: Parsed, b: Parsed): int {
    Then(CompareParts(a, b, 0),
         Then(CompareRelease(a.prerelease, b.prerelease), CompareLists(locale, a.prerelease, b.prerelease)))
  }

  /** What compareHermesVersions computes. */
  function Compare(locale: Comparison, left: string, right: string): int {
    var a, b := Parse(left), Parse(right);
    if a.None? && b.None? then locale(left, right)
    else if a.None? then -1
    else if b.None? then 1
    else CompareParsed(locale, a.value, b.value)
  }

  /** The source's compareHermesVersions, with its two loops. */
  method CompareHermesVersions(locale: Comparison, left: string, right: string) returns (result: int)
    ensures result == Compare(locale, left, right)
  {
    hide Parse, CompareParts, CompareLists;
    var l, r := Parse(left), Parse(right);
    if l.None? && r.None? {
      return locale(left, right);
    }
    if l.None? {
      return -1;
    }
    if r.None? {
      return 1;
    }
    var a, b := l.value, r.value;
    var index := 0;
    while index < 4
      invariant 0 <= index <= 4
      invariant CompareParts(a, b, 0) == CompareParts(a, b, index)
    {
      var difference := Part(a, index) - Part(b, index);
      PartsStep(a, b, index);
      if difference != 0 {
        return difference;
      }
      index := index + 1;
    }
    PartsStep(a, b, 4);
    if a.prerelease == [] && b.prerelease != [] {
      return 1;
    }
    if a.prerelease != [] && b.prerelease == [] {
      return -1;
    }
    result := ComparePrereleases(locale, a.prerelease, b.prerelease);
  }

  method ComparePrereleases(locale: Comparison, a: seq<string>, b: seq<string>) returns (result: int)
    ensures result == CompareLists(locale, a, b)
  {
    hide CompareLists, ToNat;
    var index := 0;
    assert a[0..] == a && b[0..] == b;
    while index < |a| || index < |b|
      invariant 0 <= index && (index <= |a| || index <= |b|)
      invariant index <= |a| && index <= |b|
      invariant CompareLists(locale, a, b) == CompareLists(locale, a[index..], b[index..])
      decreases |a| + |b| - index
    {
      ListsStep(locale, a, b, index);
      if index >= |a| {
        return -1;
      }
      if index >= |b| {
        return 1;
      }
      var av, bv := a[index], b[index];
      var an: Option<int> := if IsNumber(av) then Some(ToNat(av)) else None;
      var bn: Option<int> := if IsNumber(bv) then Some(ToNat(bv)) else None;
      if an.Some? && bn.Some? && an.value != bn.value {
        return an.value - bn.value;
      }
      if an.Some? && bn.None? {
        return -1;
      }
      if an.None? && bn.Some? {
        return 1;
      }
      var difference := locale(av, bv);
      if difference != 0 {
        return difference;
      }
      index := index + 1;
    }
    ListsStep(locale, a, b, index);
    result := 0;
  }

  lemma PartsStep(a: Parsed, b: Parsed, i: nat)
    requires i <= 4
    ensures CompareParts(a, b, i) == if i == 4 then 0 else Then(Part(a, i) - Part(b, i), CompareParts(a, b, i + 1))
  {
  }

  lemma ListsStep(locale: Comparison, a: seq<string>, b: seq<string>, i: nat)
    requires i <= |a| && i <= |b|
    ensures CompareLists(locale, a[i..], b[i..]) ==
            if i == |a| && i == |b| then 0
            else if i == |a| then -1
            else if i == |b| then 1
            else Then(CompareIds(locale, a[i], b[i]), CompareLists(locale, a[i + 1..], b[i + 1..]))
  {
    hide CompareIds;
    if i < |a| && i < |b| {
      assert a[i..][1..] == a[i + 1..] && b[i..][1..] == b[i + 1..];
    }
  }

  // ---------------------------------------------------------------- a total preorder

  predicate Opposite(x: int, y: int) {
    (x < 0 <==> y > 0) && (x > 0 <==> y < 0)
  }

  ghost predicate TotalPreorder(c: Comparison) {
    && (forall x, y :: Opposite(c(x, y), c(y, x)))
    && (forall x, y, z :: c(x, y) <= 0 && c(y, z) <= 0 ==> c(x, z) <= 0)
  }

  /** Three comparisons x:y, y:z, x:z fit together: going up twice is going up, and only standing still
      twice is standing still. */
  predicate Chain(xy: int, yz: int, xz: int) {
    xy <= 0 && yz <= 0 ==> xz <= 0 && (xz == 0 ==> xy == 0 && yz == 0)
  }

  lemma PreorderChain(c: Comparison, x: string, y: string, z: string)
    requires TotalPreorder(c)
    ensures Chain(c(x, y), c(y, z), c(x, z)) && Opposite(c(x, y), c(y, x))
  {
    assert Opposite(c(x, z), c(z, x)) && Opposite(c(y, z), c(z, y)) && Opposite(c(x, y), c(y, x));
    assert c(z, x) <= 0 && c(x, y) <= 0 ==> c(z, y) <= 0;
    assert c(y, z) <= 0 && c(z, x) <= 0 ==> c(y, x) <= 0;
  }

  lemma PartsChain(a: Parsed, b: Parsed, d: Parsed, i: nat)
    requires i <= 4
    ensures Chain(CompareParts(a, b, i), CompareParts(b, d, i), CompareParts(a, d, i))
    ensures Opposite(CompareParts(a, b, i), CompareParts(b, a, i))
    decreases 4 - i
  {
    if i < 4 {
      PartsChain(a, b, d, i + 1);
    }
  }

  lemma IdsChain(locale: Comparison, a: string, b: string, d: string)
    requires TotalPreorder(locale)
    ensures Chain(CompareIds(locale, a, b), CompareIds(locale, b, d), CompareIds(locale, a, d))
    ensures Opposite(CompareIds(locale, a, b), CompareIds(locale, b, a))
  {
    PreorderChain(locale, a, b, d);
    hide TotalPreorder, ToNat, IsNumber;
  }

  lemma {:induction false} ListsChain(locale: Comparison, a: seq<string>, b: seq<string>, d: seq<string>)
    requires TotalPreorder(locale)
    ensures Chain(CompareLists(locale, a, b), CompareLists(locale, b, d), CompareLists(locale, a, d))
    ensures Opposite(CompareLists(locale, a, b), CompareLists(locale, b, a))
    decreases |a| + |b| + |d|
  {
    hide TotalPreorder, CompareIds;
    if a != [] && b != [] {
      IdsChain(locale, a[0], b[0], if d == [] then "" else d[0]);
      ListsChain(locale, a[1..], b[1..], if d == [] then [] else d[1..]);
    }
  }

  lemma ParsedChain(locale: Comparison, a: Parsed, b: Parsed, d: Parsed)
    requires TotalPreorder(locale)
    ensures Chain(CompareParsed(locale, a, b), CompareParsed(locale, b, d), CompareParsed(locale, a, d))
    ensures Opposite(CompareParsed(locale, a, b), CompareParsed(locale, b, a))
  {
    hide TotalPreorder, CompareLists, CompareParts;
    PartsChain(a, b, d, 0);
    ListsChain(locale, a.prerelease, b.prerelease, d.prerelease);
  }

  lemma CompareChain(locale: Comparison, x: string, y: string, z: string)
    requires TotalPreorder(locale)
    ensures Chain(Compare(locale, x, y), Compare(locale, y, z), Compare(locale, x, z))
    ensures Opposite(Compare(locale, x, y), Compare(locale, y, x))
  {
    PreorderChain(locale, x, y, z);
    hide TotalPreorder, CompareParsed, Parse;
    var none := Parsed([0], []);
    ParsedChain(locale, Parse(x).GetOr(none), Parse(y).GetOr(none), Parse(z).GetOr(none));
  }

  /** Whatever the strings are, parsable or not and with any number of parts, the comparison orders them:
      sorting with it is well defined. */
  lemma VersionsAreOrdered(locale: Comparison)
    requires TotalPreorder(locale)
    ensures TotalPreorder((x, y) => Compare(locale, x, y))
  {
    var c := (x, y) => Compare(locale, x, y);
    forall x, y ensures Opposite(c(x, y), c(y, x)) {
      CompareChain(locale, x, y, y);
    }
    forall x, y, z | c(x, y) <= 0 && c(y, z) <= 0 ensures c(x, z) <= 0 {
      CompareChain(locale, x, y, z);
    }
  }

  // ---------------------------------------------------------------- which version is older

  /** The first of the four numbers to differ is smaller. */
  predicate PartsBelow(a: Parsed, b: Parsed, i: nat)
    requires i <= 4
  {
    exists k :: i <= k < 4 && Part(a, k) < Part(b, k) && forall j :: i <= j < k ==> Part(a, j) == Part(b, j)
  }

  predicate SameParts(a: Parsed, b: Parsed, i: nat)
    requires i <= 4
  {
    forall j :: i <= j < 4 ==> Part(a, j) == Part(b, j)
  }

  predicate IdBelow(locale: Comparison, a: string, b: string) {
    || (IsNumber(a) && !IsNumber(b))
    || (IsNumber(a) && IsNumber(b) && ToNat(a) < ToNat(b))
    || ((IsNumber(a) && IsNumber(b) ==> ToNat(a) == ToNat(b)) && (IsNumber(a) <==> IsNumber(b)) && locale(a, b) < 0)
  }

  /** Neither identifier is below the other, seen from the left. */
  predicate IdTied(locale: Comparison, a: string, b: string) {
    (IsNumber(a) <==> IsNumber(b)) && (IsNumber(a) ==> ToNat(a) == ToNat(b)) && locale(a, b) == 0
  }

  /** The first identifiers that do not tie decide; a list that ends first is below. */
  ghost predicate ListBelow(locale: Comparison, a: seq<string>, b: seq<string>) {
    exists k :: DecidedAt(locale, a, b, k)
  }

  predicate DecidedAt(locale: Comparison, a: seq<string>, b: seq<string>, k: int) {
    && 0 <= k <= |a| && k < |b|
    && (forall j :: 0 <= j < k ==> IdTied(locale, a[j], b[j]))
    && (k < |a| ==> IdBelow(locale, a[k], b[k]))
  }

  lemma ListBelowHead(locale: Comparison, a: seq<string>, b: seq<string>)
    requires a != [] && b != []
    ensures ListBelow(locale, a, b) <==>
            IdBelow(locale, a[0], b[0]) || (IdTied(locale, a[0], b[0]) && ListBelow(locale, a[1..], b[1..]))
  {
    hide IdBelow, IdTied;
    if IdBelow(locale, a[0], b[0]) {
      assert DecidedAt(locale, a, b, 0);
    }
    if IdTied(locale, a[0], b[0]) && ListBelow(locale, a[1..], b[1..]) {
      var k :| DecidedAt(locale, a[1..], b[1..], k);
      forall j | 0 <= j < k + 1 ensures IdTied(locale, a[j], b[j]) {
        assert j > 0 ==> a[j] == a[1..][j - 1] && b[j] == b[1..][j - 1];
      }
      assert DecidedAt(locale, a, b, k + 1);
    }
    if ListBelow(locale, a, b) {
      var k :| DecidedAt(locale, a, b, k);
      if k > 0 {
        assert DecidedAt(locale, a[1..], b[1..], k - 1);
      }
    }
  }

  lemma PartsSign(a: Parsed, b: Parsed, i: nat)
    requires i <= 4
    ensures CompareParts(a, b, i) < 0 <==> PartsBelow(a, b, i)
    ensures CompareParts(a, b, i) == 0 <==> SameParts(a, b, i)
    decreases 4 - i
  {
    if i < 4 {
      PartsSign(a, b, i + 1);
      hide Part;
      if PartsBelow(a, b, i + 1) && Part(a, i) == Part(b, i) {
        var k :| i + 1 <= k < 4 && Part(a, k) < Part(b, k) && forall j :: i + 1 <= j < k ==> Part(a, j) == Part(b, j);
        assert forall j :: i <= j < k ==> Part(a, j) == Part(b, j);
      }
    }
  }

  lemma {:induction false} ListSign(locale: Comparison, a: seq<string>, b: seq<string>)
    ensures CompareLists(locale, a, b) < 0 <==> ListBelow(locale, a, b)
  {
    hide IsNumber, ToNat;
    if a != [] && b != [] {
      ListSign(locale, a[1..], b[1..]);
      ListBelowHead(locale, a, b);
    } else if a == [] && b != [] {
      assert DecidedAt(locale, a, b, 0);
    }
    hide DecidedAt;
  }

  /** When the left version is older: the numbers decide, then being a prerelease, then the identifiers; a text
    that is no version is older than any version. */
  lemma OlderIff(locale: Comparison, left: string, right: string)
    ensures Compare(locale, left, right) < 0 <==>
            match (Parse(left), Parse(right))
            case (None, None) => locale(left, right) < 0
            case (None, Some(_)) => true
            case (Some(_), None) => false
            case (Some(a), Some(b)) =>
              PartsBelow(a, b, 0)
              || (SameParts(a, b, 0)
                  && if b.prerelease == [] then a.prerelease != []
                     else a.prerelease != [] && ListBelow(locale, a.prerelease, b.prerelease))
  {
    hide Parse;
    if Parse(left).Some? && Parse(right).Some? {
      var a, b := Parse(left).value, Parse(right).value;
      PartsSign(a, b, 0);
      ListSign(locale, a.prerelease, b.prerelease);
    }
    hide CompareParts, CompareLists, PartsBelow, SameParts, ListBelow;
  }

  lemma {:induction false} ListsAreThemselves(locale: Comparison, ids: seq<string>)
    requires TotalPreorder(locale)
    ensures CompareLists(locale, ids, ids) == 0
  {
    if ids != [] {
      ListsAreThemselves(locale, ids[1..]);
      assert Opposite(locale(ids[0], ids[0]), locale(ids[0], ids[0]));
    }
    hide *;
  }

  /** A number that is not written counts as zero: 1.2 and 1.2.0 are the same version, with v or without. */
  lemma MissingNumbersAreZero(locale: Comparison, v: bool, w: bool, parts: seq<nat>, ids: seq<string>)
    requires TotalPreorder(locale) && 1 <= |parts| <= 3 && AreIds(ids)
    ensures Compare(locale, Written(v, DigitsOf(parts), ids), Written(w, DigitsOf(parts + [0]), ids)) == 0
  {
    ListsAreThemselves(locale, ids);
    ParsedRoundTrip(v, parts, ids);
    ParsedRoundTrip(w, parts + [0], ids);
    hide Parse, Written, DigitsOf, CompareLists, TotalPreorder, AreIds;
    var a, b := Parsed(parts, ids), Parsed(parts + [0], ids);
    PartsStep(a, b, 0);
    PartsStep(a, b, 1);
    PartsStep(a, b, 2);
    PartsStep(a, b, 3);
    PartsStep(a, b, 4);
    hide CompareParts;
  }

  // ---------------------------------------------------------------- capabilities

  datatype Gate = Gate(id: string, calendarVersion: string, semverVersion: string)

  function Gates(): seq<Gate> {
    [Gate("a2a", "v2026.8.3", "v0.20.0"), Gate("outbound_webhooks", "v2026.8.3", "v0.20.0"),
     Gate("agent_redirects", "v2026.8.3", "v0.20.0"), Gate("mcp_health", "v2026.8.16", "v0.20.2"),
     Gate("bot_mode", "v2026.8.31", "v0.21.0"), Gate("peer_dm", "v2026.8.31", "v0.21.0"),
     Gate("group_rooms", "v2026.8.31", "v0.21.0"), Gate("cron_continuity", "v2026.8.31", "v0.21.0"),
     Gate("subagent_steering", "v2026.8.31", "v0.21.0"), Gate("browser_control", "v2026.8.31", "v0.21.0"),
     Gate("gateway_control", "v2026.8.31", "v0.21.0")]
  }

  /** Versions starting with 0 are numbered by semantic version, the others by calendar. */
  predicate UsesPackageSemver(version: string) {
    var p := Parse(version);
    p.Some? && p.value.parts[0] == 0
  }

  predicate Passes(locale: Comparison, version: string, gate: Gate) {
    Compare(locale, version, if UsesPackageSemver(version) then gate.semverVersion else gate.calendarVersion) >= 0
  }

  function PassedIds(locale: Comparison, version: string, gates: seq<Gate>): seq<string> {
    if gates == [] then []
    else (if Passes(locale, version, gates[0]) then [gates[0].id] else []) + PassedIds(locale, version, gates[1..])
  }

  /** The source's inferAgentVersionCapabilities, on the trimmed version. */
  function Inferred(locale: Comparison, version: string): seq<string> {
    if Parse(version).None? then [] else PassedIds(locale, version, Gates())
  }

  /** A version has the capabilities of the gates it is not older than, by the number that counts for it. */
  lemma {:induction false} PassedIff(locale: Comparison, version: string, gates: seq<Gate>, id: string)
    ensures id in PassedIds(locale, version, gates) <==>
            exists k :: 0 <= k < |gates| && gates[k].id == id && IsReached(locale, version, gates[k])
  {
    hide Compare, Parse;
    if gates != [] {
      PassedIff(locale, version, gates[1..], id);
      assert forall k :: 0 <= k < |gates| - 1 ==> gates[1..][k] == gates[k + 1];
      assert forall k :: 0 < k < |gates| ==> gates[k] == gates[1..][k - 1];
      ReachedIff(locale, version, gates[0]);
    }
    hide *;
  }

  /** Versions 0.x count by the semantic number of the gate, all others by its calendar number. */
  predicate IsReached(locale: Comparison, version: string, gate: Gate) {
    var semantic := match Parse(version) case Some(p) => p.parts[0] == 0 case None => false;
    !(Compare(locale, version, if semantic then gate.semverVersion else gate.calendarVersion) < 0)
  }

  lemma ReachedIff(locale: Comparison, version: string, gate: Gate)
    ensures Passes(locale, version, gate) <==> IsReached(locale, version, gate)
  {
    hide Compare, Parse;
  }

  /** Within one numbering, a version that is not older has every capability of the other, in any table of
      gates. */
  lemma {:induction false} NewerPassesMore(locale: Comparison, older: string, newer: string, gates: seq<Gate>)
    requires TotalPreorder(locale)
    requires Compare(locale, older, newer) <= 0 && UsesPackageSemver(older) == UsesPackageSemver(newer)
    ensures forall id :: id in PassedIds(locale, older, gates) ==> id in PassedIds(locale, newer, gates)
  {
    hide Compare, TotalPreorder, UsesPackageSemver;
    if gates != [] {
      NewerPassesMore(locale, older, newer, gates[1..]);
      var gate := if UsesPackageSemver(older) then gates[0].semverVersion else gates[0].calendarVersion;
      CompareChain(locale, older, newer, gate);
      CompareChain(locale, gate, older, newer);
      CompareChain(locale, gate, newer, older);
      CompareChain(locale, older, gate, gate);
    }
  }

  lemma NewerInfersMore(locale: Comparison, older: string, newer: string)
    requires TotalPreorder(locale)
    requires Compare(locale, older, newer) <= 0 && UsesPackageSemver(older) == UsesPackageSemver(newer)
    ensures forall id :: id in Inferred(locale, older) ==> id in Inferred(locale, newer)
  {
    NewerPassesMore(locale, older, newer, Gates());
    hide Gates, PassedIds;
    assert Parse(older).Some? ==> Parse(newer).Some?;
  }
}
