/** Version precedence in check_version_bump.sh, against section 11 of Semantic Versioning 2.0.0. */
module SemVer {
  import opened Wrappers
  import opened Text
  import opened Splitting

  datatype Version = Version(major: string, minor: string, patch: string, pre: seq<string>)

  predicate IsInteger(s: string) {
    s != "" && forall i | 0 <= i < |s| :: IsDigit(s[i])
  }

  predicate IdentifierChar(c: char) {
    IsDigit(c) || 'A' <= c <= 'Z' || 'a' <= c <= 'z' || c == '-'
  }

  predicate Identifier(s: string) {
    s != "" && forall i | 0 <= i < |s| :: IdentifierChar(s[i])
  }

  predicate Identifiers(parts: seq<string>) {
    forall i | 0 <= i < |parts| :: Identifier(parts[i])
  }

  predicate Valid(v: Version) {
    IsInteger(v.major) && IsInteger(v.minor) && IsInteger(v.patch) && Identifiers(v.pre)
  }

  // ----------------------------------------------------------------- parsing

  /** `semver_parse`: what the regular expression takes from a text. */
  function Parse(text: string): (r: Option<Version>)
    ensures r.Some? ==> Valid(r.value)
  {
    var plus := IndexOf(text, '+');
    var dash := IndexOf(text[..plus], '-');
    var numbers := Split(text[..dash], '.');
    var pre := if dash < plus then Split(text[dash + 1..plus], '.') else [];
    if |numbers| == 3 && IsInteger(numbers[0]) && IsInteger(numbers[1]) && IsInteger(numbers[2]) && Identifiers(pre)
       && (plus < |text| ==> Identifiers(Split(text[plus + 1..], '.')))
    then Some(Version(numbers[0], numbers[1], numbers[2], pre))
    else None
  }

  /** The text of a version, with build metadata. */
  function VersionText(v: Version, build: seq<string>): string {
    v.major + "." + v.minor + "." + v.patch +
    (if v.pre == [] then "" else "-" + Join(v.pre, '.')) + (if build == [] then "" else "+" + Join(build, '.'))
  }

  predicate Dotted(text: string) {
    forall i | 0 <= i < |text| :: IdentifierChar(text[i]) || text[i] == '.'
  }

  lemma {:induction false} JoinedChars(parts: seq<string>)
    requires |parts| >= 1 && Identifiers(parts)
    ensures Dotted(Join(parts, '.'))
  {
    assert Identifier(parts[0]);
    if |parts| > 1 {
      JoinedChars(parts[1..]);
      DottedJoin(parts[0], Join(parts[1..], '.'));
    }
  }

  lemma DottedJoin(a: string, b: string)
    requires Identifier(a) && Dotted(b)
    ensures Dotted(a + "." + b)
  {
    var text := a + "." + b;
    forall i | 0 <= i < |text| ensures IdentifierChar(text[i]) || text[i] == '.' {
      if i > |a| {
        assert text[i] == b[i - |a| - 1];
      }
    }
  }

  lemma IdentifiersAreFree(parts: seq<string>)
    requires |parts| >= 1 && Identifiers(parts)
    ensures Split(Join(parts, '.'), '.') == parts && '+' !in Join(parts, '.')
  {
    hide Join, Split;
    JoinedChars(parts);
    forall p | p in parts ensures '.' !in p {
      var i :| 0 <= i < |parts| && parts[i] == p;
      assert Identifier(parts[i]);
    }
    SplitOfJoin(parts, '.');
  }

  lemma NumberChars(s: string)
    requires IsInteger(s)
    ensures '.' !in s && '-' !in s && '+' !in s
  {
  }

  lemma ThreeJoined(a: string, b: string, c: string)
    ensures Join([a, b, c], '.') == a + "." + b + "." + c
  {
    assert [a, b, c][1..] == [b, c] && [b, c][1..] == [c];
    assert Join([c], '.') == c;
    assert Join([b, c], '.') == b + "." + c;
    assert a + "." + (b + "." + c) == a + "." + b + "." + c;
  }

  lemma NumbersSplit(v: Version)
    requires Valid(v)
    ensures var numbers := v.major + "." + v.minor + "." + v.patch;
            Split(numbers, '.') == [v.major, v.minor, v.patch] && '-' !in numbers && '+' !in numbers
  {
    hide Split, Join, IsInteger, Identifiers;
    NumberChars(v.major);
    NumberChars(v.minor);
    NumberChars(v.patch);
    ThreeJoined(v.major, v.minor, v.patch);
    SplitOfJoin([v.major, v.minor, v.patch], '.');
  }

  lemma ParseSections(numbers: string, pre: string, build: string)
    requires '-' !in numbers && '+' !in numbers && '+' !in pre
    requires (pre != "" ==> pre[0] == '-') && (build != "" ==> build[0] == '+')
    ensures var text := numbers + pre + build;
            && IndexOf(text, '+') == |numbers + pre| && IndexOf(text[..|numbers + pre|], '-') == |numbers|
            && text[..|numbers|] == numbers
            && (pre != "" ==> text[|numbers| + 1..|numbers + pre|] == pre[1..])
            && (build != "" ==> text[|numbers + pre| + 1..] == build[1..])
  {
    var text := numbers + pre + build;
    IndexOfIs(text, '+', |numbers + pre|);
    assert text[..|numbers + pre|] == numbers + pre;
    IndexOfIs(numbers + pre, '-', |numbers|);
  }

  /** Every version text is parsed to its version, and the build metadata is ignored. */
  lemma ParseOfText(v: Version, build: seq<string>)
    requires Valid(v) && Identifiers(build)
    ensures Parse(VersionText(v, build)) == Some(v)
  {
    hide Split, Join, IsInteger, Identifiers;
    var numbers := v.major + "." + v.minor + "." + v.patch;
    var pre := if v.pre == [] then "" else "-" + Join(v.pre, '.');
    var tail := if build == [] then "" else "+" + Join(build, '.');
    NumbersSplit(v);
    NoIdentifiers();
    if v.pre != [] {
      IdentifiersAreFree(v.pre);
      assert pre[1..] == Join(v.pre, '.');
    }
    if build != [] {
      IdentifiersAreFree(build);
      assert tail[1..] == Join(build, '.');
    }
    ParseSections(numbers, pre, tail);
    ParseOf(numbers, pre, tail);
  }

  lemma ParseOf(numbers: string, pre: string, tail: string)
    requires '-' !in numbers && '+' !in numbers && '+' !in pre
    requires (pre != "" ==> pre[0] == '-') && (tail != "" ==> tail[0] == '+')
    requires var parts := Split(numbers, '.');
             |parts| == 3 && IsInteger(parts[0]) && IsInteger(parts[1]) && IsInteger(parts[2])
    requires (pre != "" ==> Identifiers(Split(pre[1..], '.'))) && (tail != "" ==> Identifiers(Split(tail[1..], '.')))
    ensures var parts := Split(numbers, '.');
            Parse(numbers + pre + tail)
            == Some(Version(parts[0], parts[1], parts[2], if pre == "" then [] else Split(pre[1..], '.')))
  {
    hide Split, IsInteger, Identifiers;
    NoIdentifiers();
    ParseSections(numbers, pre, tail);
    assert (numbers + pre + tail)[..|numbers + pre|] == numbers + pre;
  }

  lemma ParsedHead(head: string, dash: nat)
    requires dash == IndexOf(head, '-') && |Split(head[..dash], '.')| == 3
    ensures var numbers := Split(head[..dash], '.');
            head == numbers[0] + "." + numbers[1] + "." + numbers[2] +
                    if dash < |head| then "-" + Join(Split(head[dash + 1..], '.'), '.') else ""
  {
    hide Split, Join;
    var numbers := Split(head[..dash], '.');
    JoinOfSplit(head[..dash], '.');
    ThreeJoined(numbers[0], numbers[1], numbers[2]);
    assert numbers == [numbers[0], numbers[1], numbers[2]];
    if dash < |head| {
      JoinOfSplit(head[dash + 1..], '.');
      assert head == head[..dash] + "-" + head[dash + 1..];
    } else {
      assert head == head[..dash];
    }
  }

  /** Nothing else is parsed. */
  lemma ParsedText(text: string) returns (build: seq<string>)
    requires Parse(text).Some?
    ensures Identifiers(build) && text == VersionText(Parse(text).value, build)
  {
    hide Split, Join, IsInteger, Identifiers;
    var plus := IndexOf(text, '+');
    var head := text[..plus];
    var dash := IndexOf(head, '-');
    assert head[..dash] == text[..dash] && (dash < plus ==> head[dash + 1..] == text[dash + 1..plus]);
    ParsedHead(head, dash);
    NoIdentifiers();
    if plus < |text| {
      build := Split(text[plus + 1..], '.');
      JoinOfSplit(text[plus + 1..], '.');
      assert text == head + ("+" + text[plus + 1..]);
    } else {
      build := [];
      assert text == head;
    }
  }

  lemma NoIdentifiers()
    ensures Identifiers([])
  {
  }

  // -------------------------------------------------------------- comparison

  function CompareNumbers(a: nat, b: nat): int {
    if a > b then 1 else if a < b then -1 else 0
  }

  /** Byte order of strings. */
  function CompareText(a: string, b: string): (c: int)
    ensures -1 <= c <= 1
  {
    if a == "" then (if b == "" then 0 else -1)
    else if b == "" then 1
    else if a[0] != b[0] then (if a[0] > b[0] then 1 else -1)
    else CompareText(a[1..], b[1..])
  }

  function CompareIdentifiers(a: string, b: string): int {
    if IsInteger(a) && IsInteger(b) then CompareNumbers(DigitsToNat(a), DigitsToNat(b))
    else if IsInteger(a) then -1
    else if IsInteger(b) then 1
    else CompareText(a, b)
  }

  function CompareFields(l: seq<string>, r: seq<string>): int {
    if l == [] then (if r == [] then 0 else -1)
    else if r == [] then 1
    else if CompareIdentifiers(l[0], r[0]) != 0 then CompareIdentifiers(l[0], r[0])
    else CompareFields(l[1..], r[1..])
  }

  function ComparePrerelease(l: seq<string>, r: seq<string>): int {
    if l == [] && r == [] then 0 else if l == [] then 1 else if r == [] then -1 else CompareFields(l, r)
  }

  function Compare(a: Version, b: Version): int
    requires Valid(a) && Valid(b)
  {
    var major := CompareNumbers(DigitsToNat(a.major), DigitsToNat(b.major));
    var minor := CompareNumbers(DigitsToNat(a.minor), DigitsToNat(b.minor));
    var patch := CompareNumbers(DigitsToNat(a.patch), DigitsToNat(b.patch));
    if major != 0 then major else if minor != 0 then minor else if patch != 0 then patch
    else ComparePrerelease(a.pre, b.pre)
  }

  method SemverComparePrerelease(l: seq<string>, r: seq<string>) returns (c: int)
    requires Identifiers(l) && Identifiers(r)
    ensures c == ComparePrerelease(l, r)
  {
    if l == [] && r == [] {
      return 0;
    }
    if l == [] {
      return 1;
    }
    if r == [] {
      return -1;
    }
    assert l[0..] == l && r[0..] == r;
    var i := 0;
    while i < |l| || i < |r|
      invariant i <= |l| && i <= |r| && CompareFields(l, r) == CompareFields(l[i..], r[i..])
      decreases |l| - i
    {
      var li := if i < |l| then l[i] else "";
      var ri := if i < |r| then r[i] else "";
      if li == "" {
        return -1;
      }
      if ri == "" {
        return 1;
      }
      assert l[i..][1..] == l[i + 1..] && r[i..][1..] == r[i + 1..];
      if IsInteger(li) && IsInteger(ri) {
        if DigitsToNat(li) > DigitsToNat(ri) {
          return 1;
        }
        if DigitsToNat(li) < DigitsToNat(ri) {
          return -1;
        }
      } else if IsInteger(li) {
        return -1;
      } else if IsInteger(ri) {
        return 1;
      } else {
        var text := CompareText(li, ri);
        if text > 0 {
          return 1;
        }
        if text < 0 {
          return -1;
        }
      }
      i := i + 1;
    }
    return 0;
  }

  method SemverCompare(lhs: Version, rhs: Version) returns (c: int)
    requires Valid(lhs) && Valid(rhs)
    ensures c == Compare(lhs, rhs)
  {
    if DigitsToNat(lhs.major) > DigitsToNat(rhs.major) {
      return 1;
    }
    if DigitsToNat(lhs.major) < DigitsToNat(rhs.major) {
      return -1;
    }
    if DigitsToNat(lhs.minor) > DigitsToNat(rhs.minor) {
      return 1;
    }
    if DigitsToNat(lhs.minor) < DigitsToNat(rhs.minor) {
      return -1;
    }
    if DigitsToNat(lhs.patch) > DigitsToNat(rhs.patch) {
      return 1;
    }
    if DigitsToNat(lhs.patch) < DigitsToNat(rhs.patch) {
      return -1;
    }
    c := SemverComparePrerelease(lhs.pre, rhs.pre);
  }

  // -------------------------------------------------------------------- order

  /** Three comparisons fit together: transitive, and equal only if both steps are. */
  predicate Chains(ab: int, bc: int, ac: int) {
    ab <= 0 && bc <= 0 ==> ac <= 0 && (ac == 0 ==> ab == 0 && bc == 0)
  }

  lemma {:induction false} TextOrder(a: string, b: string, c: string)
    ensures CompareText(b, a) == -CompareText(a, b)
    ensures CompareText(a, b) == 0 <==> a == b
    ensures Chains(CompareText(a, b), CompareText(b, c), CompareText(a, c))
    decreases |a|
  {
    if a != "" && b != "" {
      TextOrder(a[1..], b[1..], if c == "" then "" else c[1..]);
      if CompareText(a, b) == 0 {
        assert a == [a[0]] + a[1..] && b == [b[0]] + b[1..];
      }
    }
  }

  lemma IdentifierOrder(a: string, b: string, c: string)
    ensures CompareIdentifiers(b, a) == -CompareIdentifiers(a, b)
    ensures Chains(CompareIdentifiers(a, b), CompareIdentifiers(b, c), CompareIdentifiers(a, c))
  {
    hide CompareText, DigitsToNat, IsInteger;
    TextOrder(a, b, c);
  }

  lemma {:induction false} FieldsOrder(a: seq<string>, b: seq<string>, c: seq<string>)
    ensures CompareFields(b, a) == -CompareFields(a, b)
    ensures Chains(CompareFields(a, b), CompareFields(b, c), CompareFields(a, c))
    decreases |a|
  {
    hide CompareIdentifiers;
    if a != [] && b != [] {
      IdentifierOrder(a[0], b[0], if c == [] then "" else c[0]);
      FieldsOrder(a[1..], b[1..], if c == [] then [] else c[1..]);
    }
  }

  /** The comparison is a total preorder: antisymmetric in sign, total, and transitive. */
  lemma CompareIsATotalPreorder(a: Version, b: Version, c: Version)
    requires Valid(a) && Valid(b) && Valid(c)
    ensures Compare(b, a) == -Compare(a, b)
    ensures Compare(a, b) <= 0 || Compare(b, a) <= 0
    ensures Compare(a, b) <= 0 && Compare(b, c) <= 0 ==> Compare(a, c) <= 0
    ensures Chains(Compare(a, b), Compare(b, c), Compare(a, c))
  {
    hide CompareFields, DigitsToNat, IsInteger, Identifiers;
    FieldsOrder(a.pre, b.pre, c.pre);
  }

  /**
    `semver_gt` of two texts that are versions.  Its callers test both with `is_semver` first (lines 261 to
    282 of the script), so what it answers for other texts is not modelled.
   */
  predicate Greater(a: string, b: string) {
    Parse(a).Some? && Parse(b).Some? && Compare(Parse(a).value, Parse(b).value) > 0
  }

  /** A strict order on version texts that build metadata does not change. */
  lemma GreaterIsAStrictOrder(a: string, b: string, c: string)
    ensures !Greater(a, a)
    ensures Greater(a, b) ==> !Greater(b, a)
    ensures Greater(a, b) && Greater(b, c) ==> Greater(a, c)
  {
    hide Parse, Compare, Valid;
    if Parse(a).Some? {
      CompareIsATotalPreorder(Parse(a).value, Parse(a).value, Parse(a).value);
      if Parse(b).Some? {
        CompareIsATotalPreorder(Parse(a).value, Parse(b).value, Parse(a).value);
        if Parse(c).Some? {
          CompareIsATotalPreorder(Parse(c).value, Parse(b).value, Parse(a).value);
          CompareIsATotalPreorder(Parse(a).value, Parse(c).value, Parse(b).value);
          CompareIsATotalPreorder(Parse(b).value, Parse(c).value, Parse(a).value);
        }
      }
    }
  }

  lemma GreaterIgnoresBuild(v: Version, w: Version, b1: seq<string>, b2: seq<string>)
    requires Valid(v) && Valid(w) && Identifiers(b1) && Identifiers(b2)
    ensures Greater(VersionText(v, b1), VersionText(w, b2)) <==> Greater(VersionText(v, []), VersionText(w, []))
    ensures Greater(VersionText(v, b1), VersionText(w, b2)) <==> Compare(v, w) > 0
  {
    hide Parse, Compare, VersionText;
    ParseOfText(v, b1);
    ParseOfText(w, b2);
    ParseOfText(v, []);
    ParseOfText(w, []);
  }

  // ------------------------------------------------------------- section 11

  /** 11.4.1 to 11.4.3: numeric identifiers by number, others by ASCII order, numeric ones lower. */
  ghost predicate IdentifierBefore(a: string, b: string) {
    if IsInteger(a) then (IsInteger(b) ==> DigitsToNat(a) < DigitsToNat(b))
    else !IsInteger(b) && TextBefore(a, b)
  }

  /** Lexical order: a proper prefix, or a smaller character at the first difference. */
  ghost predicate TextBefore(a: string, b: string) {
    exists k: nat :: FirstDifference(a, b, k) && (k == |a| || a[k] < b[k])
  }

  ghost predicate FirstDifference(a: string, b: string, k: nat) {
    k <= |a| && k < |b| && (k < |a| ==> a[k] != b[k]) && forall i | 0 <= i < k :: a[i] == b[i]
  }

  predicate SameIdentifier(a: string, b: string) {
    a == b || (IsInteger(a) && IsInteger(b) && DigitsToNat(a) == DigitsToNat(b))
  }

  /** 11.4: the first different field decides, and with all preceding fields equal, more fields win. */
  ghost predicate FieldsBefore(l: seq<string>, r: seq<string>) {
    exists k: nat :: FieldsAgree(l, r, k) && (k == |l| || IdentifierBefore(l[k], r[k]))
  }

  ghost predicate FieldsAgree(l: seq<string>, r: seq<string>, k: nat) {
    k <= |l| && k < |r| && forall i | 0 <= i < k :: SameIdentifier(l[i], r[i])
  }

  /** 11.2 and 11.3. */
  ghost predicate Precedes(a: Version, b: Version)
    requires Valid(a) && Valid(b)
  {
    var (a1, a2, a3) := (DigitsToNat(a.major), DigitsToNat(a.minor), DigitsToNat(a.patch));
    var (b1, b2, b3) := (DigitsToNat(b.major), DigitsToNat(b.minor), DigitsToNat(b.patch));
    || a1 < b1
    || (a1 == b1 && a2 < b2)
    || (a1 == b1 && a2 == b2 && a3 < b3)
    || (a1 == b1 && a2 == b2 && a3 == b3 && a.pre != [] && (b.pre == [] || FieldsBefore(a.pre, b.pre)))
  }

  lemma {:induction false} TextAgrees(a: string, b: string)
    ensures CompareText(a, b) < 0 <==> TextBefore(a, b)
    decreases |a|
  {
    if a == "" && b != "" {
      assert FirstDifference(a, b, 0);
    } else if a != "" && b != "" && a[0] != b[0] {
      if a[0] < b[0] {
        assert FirstDifference(a, b, 0);
      } else if TextBefore(a, b) {
        var k: nat :| FirstDifference(a, b, k) && (k == |a| || a[k] < b[k]);
        if k > 0 {
          assert false;
        }
      }
    } else if a != "" && b != "" {
      TextAgrees(a[1..], b[1..]);
      if TextBefore(a[1..], b[1..]) {
        var k: nat :| FirstDifference(a[1..], b[1..], k) && (k == |a[1..]| || a[1..][k] < b[1..][k]);
        assert forall i | 1 <= i < k + 1 :: a[i] == a[1..][i - 1] && b[i] == b[1..][i - 1];
        assert FirstDifference(a, b, k + 1);
      }
      if TextBefore(a, b) {
        var k: nat :| FirstDifference(a, b, k) && (k == |a| || a[k] < b[k]);
        assert FirstDifference(a[1..], b[1..], k - 1);
      }
    }
  }

  lemma IdentifiersAgree(a: string, b: string)
    ensures CompareIdentifiers(a, b) < 0 <==> IdentifierBefore(a, b)
    ensures CompareIdentifiers(a, b) == 0 <==> SameIdentifier(a, b)
  {
    hide CompareText, DigitsToNat, TextBefore;
    TextAgrees(a, b);
    TextOrder(a, b, a);
  }

  lemma {:induction false} FieldsComparisonAgrees(l: seq<string>, r: seq<string>)
    ensures CompareFields(l, r) < 0 <==> FieldsBefore(l, r)
    decreases |l|
  {
    hide CompareIdentifiers, IdentifierBefore, SameIdentifier;
    if l == [] {
      if r != [] {
        assert FieldsAgree(l, r, 0);
      }
    } else if r != [] {
      IdentifiersAgree(l[0], r[0]);
      IdentifierOrder(l[0], r[0], l[0]);
      FieldsComparisonAgrees(l[1..], r[1..]);
      FieldsBeforeStep(l, r);
    }
  }

  lemma FieldsBeforeStep(l: seq<string>, r: seq<string>)
    requires l != [] && r != []
    ensures FieldsBefore(l, r) <==>
            IdentifierBefore(l[0], r[0]) || (SameIdentifier(l[0], r[0]) && FieldsBefore(l[1..], r[1..]))
  {
    hide IdentifierBefore, SameIdentifier;
    if IdentifierBefore(l[0], r[0]) {
      assert FieldsAgree(l, r, 0);
    }
    if SameIdentifier(l[0], r[0]) && FieldsBefore(l[1..], r[1..]) {
      var k: nat :| FieldsAgree(l[1..], r[1..], k) && (k == |l[1..]| || IdentifierBefore(l[1..][k], r[1..][k]));
      forall i | 1 <= i < k + 1 ensures SameIdentifier(l[i], r[i]) {
        assert l[i] == l[1..][i - 1] && r[i] == r[1..][i - 1];
      }
      assert FieldsAgree(l, r, k + 1);
    }
    if FieldsBefore(l, r) {
      var k: nat :| FieldsAgree(l, r, k) && (k == |l| || IdentifierBefore(l[k], r[k]));
      if k > 0 {
        assert FieldsAgree(l[1..], r[1..], k - 1);
      }
    }
  }

  /** The script's comparison is the precedence of section 11, for all versions. */
  lemma CompareIsPrecedence(a: Version, b: Version)
    requires Valid(a) && Valid(b)
    ensures Compare(a, b) < 0 <==> Precedes(a, b)
    ensures Compare(a, b) > 0 <==> Precedes(b, a)
    ensures Compare(a, b) == 0 <==> !Precedes(a, b) && !Precedes(b, a)
  {
    hide DigitsToNat, CompareFields, FieldsBefore, Identifiers, IsInteger;
    FieldsComparisonAgrees(a.pre, b.pre);
    FieldsComparisonAgrees(b.pre, a.pre);
    FieldsOrder(a.pre, b.pre, a.pre);
  }
}
