/**
 Numeric versions of one to four segments, their equivalence up to trailing zeros, and the admission of
 installations, which never goes back.
 */
module NumericVersions {
  import opened Collections
  import opened Text

  const U64_MAX: nat := 0xFFFF_FFFF_FFFF_FFFF

  type Version = seq<nat>

  // ---------------------------------------------------------------- parsing

  /** The pieces between the dots; there is always at least one. */
  function Split(s: string): (pieces: seq<string>)
    ensures pieces != []
  {
    if s == [] then [[]]
    else
      var rest := Split(s[1..]);
      if s[0] == '.' then [[]] + rest else [[s[0]] + rest[0]] + rest[1..]
  }

  predicate IsDigit(c: char) {
    '0' <= c <= '9'
  }

  predicate Canonical(segment: string) {
    && segment != [] && (forall i :: 0 <= i < |segment| ==> IsDigit(segment[i]))
    && (|segment| > 1 ==> segment[0] != '0')
  }

  function ParseSegment(segment: string): Option<nat> {
    if !Canonical(segment) then None
    else
      var value := DecimalValue(segment);
      if value.Some? && value.value <= U64_MAX then value else None
  }

  function ParseSegments(segments: seq<string>): Option<Version> {
    if segments == [] then Some([])
    else
      var first, rest := ParseSegment(segments[0]), ParseSegments(segments[1..]);
      if first.Some? && rest.Some? then Some([first.value] + rest.value) else None
  }

  function Parse(s: string): Option<Version> {
    var segments := Split(s);
    if |segments| > 4 then None else ParseSegments(segments)
  }

  /** A version as text. */
  function Print(v: Version): string
    requires v != []
  {
    if |v| == 1 then Decimal(v[0]) else Decimal(v[0]) + "." + Print(v[1..])
  }

  ghost predicate IsVersion(v: Version) {
    1 <= |v| <= 4 && forall i :: 0 <= i < |v| ==> v[i] <= U64_MAX
  }

  ghost predicate Dotless(s: string) {
    forall i :: 0 <= i < |s| ==> s[i] != '.'
  }

  lemma {:induction false} SplitOne(s: string)
    requires Dotless(s)
    ensures Split(s) == [s]
  {
    if s != [] {
      SplitOne(s[1..]);
      assert s == [s[0]] + s[1..];
    }
  }

  lemma {:induction false} SplitFirst(s: string, rest: string)
    requires Dotless(s)
    ensures Split(s + "." + rest) == [s] + Split(rest)
  {
    var all := s + "." + rest;
    if s == [] {
      assert all == "." + rest && all[1..] == rest;
    } else {
      SplitFirst(s[1..], rest);
      assert all[1..] == s[1..] + "." + rest && all[0] == s[0];
      assert s == [s[0]] + s[1..];
    }
  }

  lemma PrintedSegment(n: nat)
    requires n <= U64_MAX
    ensures Dotless(Decimal(n)) && ParseSegment(Decimal(n)) == Some(n)
  {
    DecimalRoundTrip(n);
    if n == 0 {
      assert Decimal(n) == "0";
    }
  }

  /** Every list of one to four u64 values is the version its text parses to. */
  lemma {:induction false} PrintThenParse(v: Version)
    requires IsVersion(v)
    ensures Split(Print(v)) != [] && |Split(Print(v))| == |v|
    ensures ParseSegments(Split(Print(v))) == Some(v) && Parse(Print(v)) == Some(v)
    decreases |v|
  {
    PrintedSegment(v[0]);
    if |v| == 1 {
      SplitOne(Decimal(v[0]));
      assert ParseSegments([Decimal(v[0])][1..]) == Some([]);
      assert [v[0]] + [] == v;
    } else {
      PrintThenParse(v[1..]);
      SplitFirst(Decimal(v[0]), Print(v[1..]));
      var segments := Split(Print(v));
      assert segments[0] == Decimal(v[0]) && segments[1..] == Split(Print(v[1..]));
      assert v == [v[0]] + v[1..];
    }
  }

  /** A canonical string of digits is the text of its value. */
  lemma {:induction false} CanonicalDigits(s: string)
    requires Canonical(s)
    ensures DecimalValue(s).Some? && Decimal(DecimalValue(s).value) == s
    ensures DecimalValue(s).value > 0 <==> s[0] != '0'
    decreases |s|
  {
    var init, d := s[..|s| - 1], LastDigit(s);
    assert s == init + [DigitChar(d)];
    if init == [] {
      assert DecimalValue(init) == Some(0);
      OneMoreChar(init, d);
      OneMoreDigit(0, d);
    } else {
      CanonicalDigits(init);
      OneMoreChar(init, d);
      OneMoreDigit(DecimalValue(init).value, d);
    }
  }

  function LastDigit(s: string): (d: nat)
    requires Canonical(s)
    ensures d < 10 && DigitChar(d) == s[|s| - 1]
  {
    assert IsDigit(s[|s| - 1]);
    s[|s| - 1] as int - '0' as int
  }

  lemma {:induction false} ParseSegmentsText(segments: seq<string>)
    requires segments != [] && ParseSegments(segments).Some?
    ensures |ParseSegments(segments).value| == |segments|
    ensures IsJoin(Print(ParseSegments(segments).value), segments)
    decreases |segments|
  {
    var v := ParseSegments(segments).value;
    CanonicalDigits(segments[0]);
    if |segments| > 1 {
      ParseSegmentsText(segments[1..]);
      assert v[1..] == ParseSegments(segments[1..]).value;
    } else {
      assert ParseSegments(segments[1..]) == Some([]);
      assert v == [ParseSegment(segments[0]).value];
    }
  }

  /** `s` is the segments joined by dots. */
  ghost predicate IsJoin(s: string, segments: seq<string>)
    requires segments != []
    decreases |segments|
  {
    if |segments| == 1 then s == segments[0]
    else exists rest :: s == segments[0] + "." + rest && IsJoin(rest, segments[1..])
  }

  lemma {:induction false} SplitIsJoin(s: string)
    ensures IsJoin(s, Split(s))
  {
    if s != [] {
      SplitIsJoin(s[1..]);
      var rest, all := Split(s[1..]), Split(s);
      assert s == [s[0]] + s[1..];
      if s[0] == '.' {
        assert all[1..] == rest && s == all[0] + "." + s[1..];
      } else if |rest| > 1 {
        var tail :| s[1..] == rest[0] + "." + tail && IsJoin(tail, rest[1..]);
        assert all[1..] == rest[1..] && s == all[0] + "." + tail;
      }
    }
  }

  lemma {:induction false} JoinIsUnique(a: string, b: string, segments: seq<string>)
    requires segments != [] && IsJoin(a, segments) && IsJoin(b, segments)
    ensures a == b
    decreases |segments|
  {
    if |segments| > 1 {
      var ra :| a == segments[0] + "." + ra && IsJoin(ra, segments[1..]);
      var rb :| b == segments[0] + "." + rb && IsJoin(rb, segments[1..]);
      JoinIsUnique(ra, rb, segments[1..]);
    }
  }

  /** A version that parses has exactly one spelling. */
  lemma ParseThenPrint(s: string)
    requires Parse(s).Some?
    ensures IsVersion(Parse(s).value) && Print(Parse(s).value) == s
  {
    var segments := Split(s);
    ParseSegmentsText(segments);
    SplitIsJoin(s);
    JoinIsUnique(s, Print(Parse(s).value), segments);
    ParsedValuesFit(segments);
  }

  lemma {:induction false} ParsedValuesFit(segments: seq<string>)
    requires ParseSegments(segments).Some?
    ensures forall i :: 0 <= i < |ParseSegments(segments).value| ==> ParseSegments(segments).value[i] <= U64_MAX
    decreases |segments|
  {
    if segments != [] {
      ParsedValuesFit(segments[1..]);
    }
  }

  // ---------------------------------------------------------------- equivalence

  function Stripped(v: Version): Version {
    if |v| > 1 && v[|v| - 1] == 0 then Stripped(v[..|v| - 1]) else v
  }

  /** The segment at a place, zero beyond the end. */
  function At(v: Version, i: nat): nat {
    if i < |v| then v[i] else 0
  }

  ghost predicate SameSegments(a: Version, b: Version) {
    forall i: nat :: At(a, i) == At(b, i)
  }

  /** No zero at the end, unless that is all there is. */
  predicate IsNormal(v: Version) {
    v != [] && (|v| > 1 ==> v[|v| - 1] != 0)
  }

  lemma {:induction false} StrippedIsNormal(v: Version)
    requires v != []
    ensures IsNormal(Stripped(v)) && SameSegments(Stripped(v), v) && Stripped(v) <= v
    decreases |v|
  {
    if |v| > 1 && v[|v| - 1] == 0 {
      StrippedIsNormal(v[..|v| - 1]);
      forall i: nat
        ensures At(v[..|v| - 1], i) == At(v, i)
      {
      }
    }
  }

  /** Normal forms with the same segments are the same list. */
  lemma NormalFormIsUnique(a: Version, b: Version)
    requires IsNormal(a) && IsNormal(b) && SameSegments(a, b)
    ensures a == b
  {
    assert |a| == |b| by {
      assert At(a, |a| - 1) == At(b, |a| - 1) && At(a, |b| - 1) == At(b, |b| - 1);
    }
    forall i | 0 <= i < |a|
      ensures a[i] == b[i]
    {
      assert At(a, i) == At(b, i);
    }
  }

  /** Two parsed versions are equivalent when stripping makes them equal: when they agree at every place. */
  lemma StrippedEqualExactlyWhenSameSegments(a: Version, b: Version)
    requires a != [] && b != []
    ensures Stripped(a) == Stripped(b) <==> SameSegments(a, b)
  {
    StrippedIsNormal(a);
    StrippedIsNormal(b);
    if SameSegments(a, b) {
      forall i: nat
        ensures At(Stripped(a), i) == At(Stripped(b), i)
      {
        assert At(Stripped(a), i) == At(a, i) && At(Stripped(b), i) == At(b, i) && At(a, i) == At(b, i);
      }
      NormalFormIsUnique(Stripped(a), Stripped(b));
    } else {
      var i: nat :| At(a, i) != At(b, i);
      assert At(Stripped(a), i) == At(a, i) && At(Stripped(b), i) == At(b, i);
    }
  }

  ghost predicate Equivalent(expected: string, actual: string) {
    && Parse(expected).Some? && Parse(actual).Some?
    && SameSegments(Parse(expected).value, Parse(actual).value)
  }

  method EquivalentNumericVersion(expected: string, actual: string) returns (same: bool)
    ensures same <==> Equivalent(expected, actual)
  {
    var left, right := Parse(expected), Parse(actual);
    if left.None? || right.None? {
      return false;
    }
    ParseThenPrint(expected);
    ParseThenPrint(actual);
    var e, a := left.value, right.value;
    while |e| > 1 && e[|e| - 1] == 0
      invariant e != [] && Stripped(e) == Stripped(left.value)
      decreases |e|
    {
      e := e[..|e| - 1];
    }
    while |a| > 1 && a[|a| - 1] == 0
      invariant a != [] && Stripped(a) == Stripped(right.value)
      decreases |a|
    {
      a := a[..|a| - 1];
    }
    StrippedEqualExactlyWhenSameSegments(left.value, right.value);
    return e == a;
  }

  /** An equivalence relation on the versions that parse. */
  lemma EquivalenceRelation(a: string, b: string, c: string)
    ensures Equivalent(a, a) <==> Parse(a).Some?
    ensures Equivalent(a, b) ==> Equivalent(b, a)
    ensures Equivalent(a, b) && Equivalent(b, c) ==> Equivalent(a, c)
  {
    if Equivalent(a, b) && Equivalent(b, c) {
      forall i: nat
        ensures At(Parse(a).value, i) == At(Parse(c).value, i)
      {
        assert At(Parse(a).value, i) == At(Parse(b).value, i) == At(Parse(c).value, i);
      }
    }
  }

  // ---------------------------------------------------------------- order

  /** Lists compare segment by segment; a proper prefix is smaller. */
  predicate Less(a: Version, b: Version) {
    if b == [] then false
    else if a == [] then true
    else if a[0] != b[0] then a[0] < b[0]
    else Less(a[1..], b[1..])
  }

  lemma {:induction false} LessIsTotal(a: Version, b: Version)
    ensures Less(a, b) || a == b || Less(b, a)
    ensures !(Less(a, b) && Less(b, a)) && !Less(a, a)
    decreases |a|
  {
    if a != [] {
      LessIsTotal(a[1..], a[1..]);
    }
    if a != [] && b != [] && a[0] == b[0] {
      LessIsTotal(a[1..], b[1..]);
      assert a == [a[0]] + a[1..] && b == [b[0]] + b[1..];
    }
  }

  lemma {:induction false} LessIsTransitive(a: Version, b: Version, c: Version)
    requires Less(a, b) && Less(b, c)
    ensures Less(a, c)
    decreases |a|
  {
    if a != [] && b != [] && c != [] && a[0] == b[0] == c[0] {
      LessIsTransitive(a[1..], b[1..], c[1..]);
    }
  }

  lemma {:induction false} ProperPrefixIsLess(a: Version, b: Version)
    requires a <= b
    ensures Less(a, b) <==> |a| < |b|
    decreases |a|
  {
    if a != [] {
      assert a[0] == b[0];
      ProperPrefixIsLess(a[1..], b[1..]);
    }
  }

  /** At the first place where they differ, `a` has the smaller number; or `a` ends there. */
  ghost predicate SmallerAt(a: Version, b: Version, k: nat) {
    && k <= |a| && k < |b| && a[..k] == b[..k]
    && (k < |a| ==> a[k] < b[k])
  }

  lemma {:induction false} SmallerLater(a: Version, b: Version, k: nat)
    requires a != [] && b != [] && a[0] == b[0]
    ensures SmallerAt(a, b, k + 1) <==> SmallerAt(a[1..], b[1..], k)
  {
    if k + 1 <= |a| && k + 1 < |b| {
      assert a[..k + 1] == [a[0]] + a[1..][..k] && b[..k + 1] == [b[0]] + b[1..][..k];
      if a[..k + 1] == b[..k + 1] {
        assert a[1..][..k] == a[..k + 1][1..] && b[1..][..k] == b[..k + 1][1..];
      }
    }
  }

  /** The order of versions is the order of numbers at the first difference; a proper prefix is smaller. */
  lemma {:induction false} LessExactlyWhen(a: Version, b: Version)
    ensures Less(a, b) <==> exists k: nat :: SmallerAt(a, b, k)
    decreases |a|
  {
    if a == [] || b == [] || a[0] != b[0] {
      if Less(a, b) {
        assert a[..0] == [] && b[..0] == [] && SmallerAt(a, b, 0);
      }
      if k: nat :| SmallerAt(a, b, k) {
        if k > 0 {
          assert a[..k][0] == b[..k][0];
        }
      }
    } else {
      LessExactlyWhen(a[1..], b[1..]);
      if k: nat :| SmallerAt(a, b, k) {
        assert k > 0;
        SmallerLater(a, b, k - 1);
      }
      if k: nat :| SmallerAt(a[1..], b[1..], k) {
        SmallerLater(a, b, k);
      }
    }
  }

  /** Equivalent versions of different spelling are ordered by length: 1.0 is below 1.0.0. */
  lemma EquivalentOrderedByLength(a: Version, b: Version)
    requires a != [] && b != [] && SameSegments(a, b)
    ensures Less(a, b) <==> |a| < |b|
    ensures |a| == |b| <==> a == b
  {
    forall i | 0 <= i < |a| && i < |b|
      ensures a[i] == b[i]
    {
      assert At(a, i) == At(b, i);
    }
    if |a| <= |b| {
      assert a == b[..|a|];
      ProperPrefixIsLess(a, b);
    } else {
      assert b == a[..|b|];
      ProperPrefixIsLess(b, a);
      LessIsTotal(a, b);
    }
  }

  // ---------------------------------------------------------------- admission

  datatype Admission = Admission(productCode: string, packageVersion: string, manifestHash: string)

  datatype VersionError = NonNumeric | ProductCodeDrift | Downgrade | SameVersionReplay

  function VerifyMonotonic(previous: Option<Admission>, next: Admission): Result<(), VersionError> {
    match previous
    case None => if Parse(next.packageVersion).None? then Err(NonNumeric) else Ok(())
    case Some(last) =>
      if last.productCode != next.productCode then Err(ProductCodeDrift)
      else if Parse(next.packageVersion).None? || Parse(last.packageVersion).None? then Err(NonNumeric)
      else
        var current, admitted := Parse(next.packageVersion).value, Parse(last.packageVersion).value;
        if Less(current, admitted) then Err(Downgrade)
        else if current == admitted && last.manifestHash != next.manifestHash then Err(SameVersionReplay)
        else Ok(())
  }

  /** One start of the service: a manifest is verified and, unless something else fails, recorded. */
  datatype Attempt = Attempt(next: Admission, recorded: bool)

  class AdmissionCustody {
    var admitted: Option<Admission>

    constructor ()
      ensures admitted == None
    {
      admitted := None;
    }

    method Admit(attempt: Attempt) returns (outcome: Result<(), VersionError>)
      modifies this
      ensures outcome == VerifyMonotonic(old(admitted), attempt.next)
      ensures admitted == if outcome.Ok? && attempt.recorded then Some(attempt.next) else old(admitted)
    {
      outcome := VerifyMonotonic(admitted, attempt.next);
      if outcome.Ok? && attempt.recorded && admitted != Some(attempt.next) {
        admitted := Some(attempt.next);
      }
    }
  }

  /** All that was ever recorded, oldest first. */
  function Recorded(admitted: Option<Admission>, attempts: seq<Attempt>): seq<Admission>
    decreases |attempts|
  {
    if attempts == [] then []
    else
      var next := attempts[0].next;
      if VerifyMonotonic(admitted, next).Ok? && attempts[0].recorded then
        [next] + Recorded(Some(next), attempts[1..])
      else
        Recorded(admitted, attempts[1..])
  }

  /** `later` may follow `earlier`: same product, no lower version, and the same version only with the same manifest. */
  ghost predicate Follows(earlier: Admission, later: Admission) {
    && Parse(earlier.packageVersion).Some? && Parse(later.packageVersion).Some?
    && earlier.productCode == later.productCode
    && !Less(Parse(later.packageVersion).value, Parse(earlier.packageVersion).value)
    && (earlier.packageVersion == later.packageVersion ==> earlier.manifestHash == later.manifestHash)
  }

  /** Verification accepts exactly what may follow. */
  lemma AdmittedExactlyWhenItFollows(last: Admission, next: Admission)
    requires Parse(last.packageVersion).Some?
    ensures VerifyMonotonic(Some(last), next).Ok? <==> Follows(last, next)
  {
    if Parse(next.packageVersion).Some? && Parse(next.packageVersion) == Parse(last.packageVersion) {
      ParseThenPrint(last.packageVersion);
      ParseThenPrint(next.packageVersion);
      assert next.packageVersion == last.packageVersion;
      LessIsTotal(Parse(next.packageVersion).value, Parse(last.packageVersion).value);
    }
  }

  /** The version of `later` is smaller than that of `earlier`, as numbers go. */
  ghost predicate GoesBack(earlier: Admission, later: Admission) {
    && Parse(earlier.packageVersion).Some? && Parse(later.packageVersion).Some?
    && exists k: nat :: SmallerAt(Parse(later.packageVersion).value, Parse(earlier.packageVersion).value, k)
  }

  /** What each attempt is told after an admission, exactly. */
  lemma AdmissionAnswers(last: Admission, next: Admission)
    requires Parse(last.packageVersion).Some?
    ensures var answer, parses := VerifyMonotonic(Some(last), next), Parse(next.packageVersion).Some?;
            && (answer == Err(ProductCodeDrift) <==> next.productCode != last.productCode)
            && (answer == Err(NonNumeric) <==> next.productCode == last.productCode && !parses)
            && (answer == Err(Downgrade) <==> next.productCode == last.productCode && GoesBack(last, next))
            && (answer == Err(SameVersionReplay) <==>
                  && next.productCode == last.productCode && parses && next.packageVersion == last.packageVersion
                  && next.manifestHash != last.manifestHash)
            && (answer == Ok(()) <==>
                  && next.productCode == last.productCode && parses && !GoesBack(last, next)
                  && (next.packageVersion == last.packageVersion ==> next.manifestHash == last.manifestHash))
  {
    if Parse(next.packageVersion).Some? {
      var a, b := Parse(next.packageVersion).value, Parse(last.packageVersion).value;
      LessExactlyWhen(a, b);
      LessIsTotal(a, b);
      if a == b {
        ParseThenPrint(last.packageVersion);
        ParseThenPrint(next.packageVersion);
      }
    }
  }

  /** The first attempt only needs a version that parses. */
  lemma FirstAdmission(next: Admission)
    ensures VerifyMonotonic(None, next) == if Parse(next.packageVersion).Some? then Ok(()) else Err(NonNumeric)
  {
  }

  /** An attempt that is refused, or not recorded, leaves what was recorded before. */
  lemma RecordedMeansAdmitted(admitted: Option<Admission>, attempt: Attempt)
    ensures Recorded(admitted, [attempt]) ==
            if VerifyMonotonic(admitted, attempt.next) == Ok(()) && attempt.recorded then [attempt.next] else []
  {
    assert [attempt][1..] == [];
  }

  lemma FollowsIsTransitive(a: Admission, b: Admission, c: Admission)
    requires Follows(a, b) && Follows(b, c)
    ensures Follows(a, c)
  {
    var x, y, z := Parse(a.packageVersion).value, Parse(b.packageVersion).value, Parse(c.packageVersion).value;
    LessIsTotal(x, y);
    LessIsTotal(y, z);
    LessIsTotal(x, z);
    if Less(x, y) && Less(y, z) {
      LessIsTransitive(x, y, z);
    }
    if a.packageVersion == c.packageVersion {
      assert x == z && x == y;
      ParseThenPrint(a.packageVersion);
      ParseThenPrint(b.packageVersion);
    }
  }

  ghost predicate Monotonic(log: seq<Admission>) {
    forall i, j :: 0 <= i < j < |log| ==> Follows(log[i], log[j])
  }

  lemma {:induction false} RecordedFollows(last: Admission, attempts: seq<Attempt>)
    requires Parse(last.packageVersion).Some?
    ensures Monotonic([last] + Recorded(Some(last), attempts))
    decreases |attempts|
  {
    if attempts != [] {
      var next := attempts[0].next;
      AdmittedExactlyWhenItFollows(last, next);
      if VerifyMonotonic(Some(last), next).Ok? && attempts[0].recorded {
        RecordedFollows(next, attempts[1..]);
        var rest := [next] + Recorded(Some(next), attempts[1..]);
        forall j | 0 <= j < |rest|
          ensures Follows(last, rest[j])
        {
          if j > 0 {
            assert Follows(rest[0], rest[j]);
            FollowsIsTransitive(last, next, rest[j]);
          }
        }
        assert Recorded(Some(last), attempts) == rest;
      } else {
        RecordedFollows(last, attempts[1..]);
      }
    }
  }

  /** In terms of numbers: nothing recorded later goes back behind what was recorded before. */
  lemma NothingRecordedGoesBack(attempts: seq<Attempt>, i: nat, j: nat)
    requires i < j < |Recorded(None, attempts)|
    ensures var log := Recorded(None, attempts);
            && !GoesBack(log[i], log[j]) && log[i].productCode == log[j].productCode
            && Parse(log[i].packageVersion).Some? && Parse(log[j].packageVersion).Some?
            && (log[i].packageVersion == log[j].packageVersion ==> log[i].manifestHash == log[j].manifestHash)
  {
    var log := Recorded(None, attempts);
    AdmissionNeverGoesBack(attempts);
    assert Follows(log[i], log[j]);
    LessExactlyWhen(Parse(log[j].packageVersion).value, Parse(log[i].packageVersion).value);
  }

  /**
   Along any run, recorded admissions are of one product, never go down in version, and record a version
   again only with the same manifest hash.
   */
  lemma {:induction false} AdmissionNeverGoesBack(attempts: seq<Attempt>)
    ensures Monotonic(Recorded(None, attempts))
    decreases |attempts|
  {
    if attempts != [] {
      var next := attempts[0].next;
      if VerifyMonotonic(None, next).Ok? && attempts[0].recorded {
        RecordedFollows(next, attempts[1..]);
      } else {
        AdmissionNeverGoesBack(attempts[1..]);
      }
    }
  }

  /**
   Spelling a version with one zero more is admitted as an upgrade, and its shorter, equivalent spelling is
   refused afterwards: after 1.0.0, 1.0 is a downgrade.
   */
  lemma EquivalentVersionMayBeADowngrade(v: Version, product: string, hash: string, other: string)
    requires IsVersion(v) && |v| <= 3
    ensures var short, long := Print(v), Print(v + [0]);
            && Equivalent(short, long)
            && VerifyMonotonic(Some(Admission(product, long, hash)), Admission(product, short, other)) == Err(Downgrade)
            && VerifyMonotonic(Some(Admission(product, short, hash)), Admission(product, long, other)) == Ok(())
  {
    PrintThenParse(v);
    PrintThenParse(v + [0]);
    assert SameSegments(v, v + [0]);
    EquivalentOrderedByLength(v, v + [0]);
    LessIsTotal(v, v + [0]);
  }
}
