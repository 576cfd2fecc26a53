/**
 Manifests of the internal channel: their admission against a history of builds, and the selection of the
 manifest a build rolls back to.
 */
module RollbackChain {
  import opened Collections
  import opened Text

  const MAX_SAFE_INTEGER: nat := 0x1F_FFFF_FFFF_FFFF
  const PREFIX := "internal-"

  /** The fields that are compared; `claims` says which of the remaining checks the manifest meets. */
  datatype Manifest = Manifest(
    buildNumber: int,
    buildId: string,
    rollbackBuildId: string,
    commit: string,
    digest: string,
    checksum: string,
    claims: Claims)

  datatype Claims = Claims(closedShape: bool, channelHeader: bool, fixedMetadata: bool, nested: bool)

  datatype Refusal =
    | ShapeNotClosed
    | InvalidBuildIdentity
    | RollbackNotOlder
    | InvalidMetadata
    | InvalidNestedClaim
    | NumberingNotMonotonic

  // ---------------------------------------------------------------- build identifiers

  function PadStart(s: string, width: nat): string {
    if |s| >= width then s else ['0'] + PadStart(s, width - 1)
  }

  function BuildIdFor(n: nat): string {
    PREFIX + PadStart(Decimal(n), 6)
  }

  predicate AllDigits(s: string) {
    forall i :: 0 <= i < |s| ==> '0' <= s[i] <= '9'
  }

  /** At least six digits after the prefix. */
  function RollbackNumber(id: string): Option<nat> {
    if |id| < |PREFIX| + 6 || id[..|PREFIX|] != PREFIX || !AllDigits(id[|PREFIX|..]) then None
    else DecimalValue(id[|PREFIX|..])
  }

  lemma {:induction false} LeadingZero(s: string)
    ensures DecimalValue(['0'] + s) == DecimalValue(s)
    decreases |s|
  {
    var all := ['0'] + s;
    if s == [] {
      assert all[..0] == [] && DecimalValue(all[..0]) == Some(0);
      assert all[|all| - 1] == '0';
    } else {
      assert all[..|all| - 1] == ['0'] + s[..|s| - 1];
      LeadingZero(s[..|s| - 1]);
    }
  }

  lemma {:induction false} PaddingKeepsTheValue(s: string, width: nat)
    requires AllDigits(s)
    ensures DecimalValue(PadStart(s, width)) == DecimalValue(s) && AllDigits(PadStart(s, width))
    ensures |PadStart(s, width)| >= width
    decreases width
  {
    if |s| < width {
      PaddingKeepsTheValue(s, width - 1);
      LeadingZero(PadStart(s, width - 1));
      PadLength(s, width);
    }
  }

  lemma {:induction false} PadLength(s: string, width: nat)
    requires |s| < width
    ensures |PadStart(s, width)| == if |s| < width - 1 then 1 + |PadStart(s, width - 1)| else 1 + |s|
    ensures |PadStart(s, width)| >= width
    decreases width
  {
    if |s| < width - 1 {
      PadLength(s, width - 1);
    }
  }

  lemma NumberOfDigits(digits: string)
    requires AllDigits(digits) && |digits| >= 6
    ensures RollbackNumber(PREFIX + digits) == DecimalValue(digits)
  {
    assert (PREFIX + digits)[..|PREFIX|] == PREFIX && (PREFIX + digits)[|PREFIX|..] == digits;
  }

  lemma BuildIdRoundTrip(n: nat)
    ensures RollbackNumber(BuildIdFor(n)) == Some(n)
  {
    DecimalRoundTrip(n);
    PaddingKeepsTheValue(Decimal(n), 6);
    NumberOfDigits(PadStart(Decimal(n), 6));
  }

  lemma {:induction false} PadAdds(s: string, width: nat, i: nat)
    ensures |PadStart(s, width)| == if |s| < width then width else |s|
    ensures var zeros := |PadStart(s, width)| - |s|;
            && PadStart(s, width)[zeros..] == s
            && (i < zeros ==> PadStart(s, width)[i] == '0')
    decreases width
  {
    if |s| < width {
      PadAdds(s, width - 1, if i > 0 then i - 1 else 0);
    }
  }

  /** The identifier of a build: the channel, and its number with zeros in front up to six digits. */
  lemma BuildIdIs(n: nat, i: nat)
    ensures var id, digits := BuildIdFor(n), Decimal(n);
            && |id| == 9 + (if |digits| < 6 then 6 else |digits|)
            && id[..9] == "internal-" && id[|id| - |digits|..] == digits
            && (9 <= i < |id| - |digits| ==> id[i] == '0')
  {
    var id, digits := BuildIdFor(n), Decimal(n);
    PadAdds(digits, 6, if i >= 9 then i - 9 else 0);
    assert id[..9] == "internal-" && id[9..] == PadStart(digits, 6);
    assert id[|id| - |digits|..] == id[9..][|PadStart(digits, 6)| - |digits|..];
  }

  // ---------------------------------------------------------------- admission

  predicate IsLowerHex(s: string, length: nat) {
    |s| == length && forall i :: 0 <= i < |s| ==> '0' <= s[i] <= '9' || 'a' <= s[i] <= 'f'
  }

  predicate IsSha256(s: string) {
    IsLowerHex(s, 64) || (|s| == 71 && s[..7] == "sha256:" && IsLowerHex(s[7..], 64))
  }

  function Admit(m: Manifest, previous: seq<Manifest>): Result<Manifest, Refusal> {
    if !m.claims.closedShape then Err(ShapeNotClosed)
    else if !m.claims.channelHeader || !(1 <= m.buildNumber <= MAX_SAFE_INTEGER) || m.buildId != BuildIdFor(m.buildNumber) then
      Err(InvalidBuildIdentity)
    else if RollbackNumber(m.rollbackBuildId).None? || RollbackNumber(m.rollbackBuildId).value >= m.buildNumber then
      Err(RollbackNotOlder)
    else if !IsLowerHex(m.commit, 40) || !IsSha256(m.digest) || !IsLowerHex(m.checksum, 64) || !m.claims.fixedMetadata then
      Err(InvalidMetadata)
    else if !m.claims.nested then Err(InvalidNestedClaim)
    else if exists p :: p in previous && (p.buildNumber >= m.buildNumber || p.buildId == m.buildId) then
      Err(NumberingNotMonotonic)
    else Ok(m)
  }

  predicate Admitted(m: Manifest) {
    Admit(m, []).Ok?
  }

  /** The prefix and at least six digits, standing for a smaller number. */
  ghost predicate OlderBuild(id: string, n: int) {
    exists digits :: |digits| >= 6 && id == "internal-" + digits && DecimalValue(digits).Some? && DecimalValue(digits).value < n
  }

  lemma OlderBuildInTheseTerms(id: string, n: int)
    ensures OlderBuild(id, n) <==> RollbackNumber(id).Some? && RollbackNumber(id).value < n
  {
    if RollbackNumber(id).Some? {
      assert id == "internal-" + id[9..];
    }
    if digits :| |digits| >= 6 && id == "internal-" + digits && DecimalValue(digits).Some? && DecimalValue(digits).value < n {
      assert id[9..] == digits && id[..9] == "internal-";
      OnlyDigitsHaveAValue(digits);
    }
  }

  lemma {:induction false} OnlyDigitsHaveAValue(s: string)
    requires DecimalValue(s).Some?
    ensures AllDigits(s)
  {
    if s != [] {
      OnlyDigitsHaveAValue(s[..|s| - 1]);
    }
  }

  predicate Hexadecimal64(s: string) {
    |s| == 64 && forall i :: 0 <= i < 64 ==> s[i] in "0123456789abcdef"
  }

  predicate HasIdentity(m: Manifest) {
    m.claims.channelHeader && 1 <= m.buildNumber <= 9007199254740991 && m.buildId == BuildIdFor(m.buildNumber)
  }

  ghost predicate HasMetadata(m: Manifest) {
    && |m.commit| == 40 && (forall i :: 0 <= i < 40 ==> m.commit[i] in "0123456789abcdef")
    && Hexadecimal64(m.checksum) && m.claims.fixedMetadata
    && (Hexadecimal64(m.digest) || exists digest :: Hexadecimal64(digest) && m.digest == "sha256:" + digest)
  }

  predicate Supersedes(m: Manifest, p: Manifest) {
    p.buildNumber < m.buildNumber && p.buildId != m.buildId
  }

  lemma LowerHexDigits(c: char)
    ensures c in "0123456789abcdef" <==> '0' <= c <= '9' || 'a' <= c <= 'f'
  {
    var all := "0123456789abcdef";
    if '0' <= c <= '9' {
      assert all[c as int - '0' as int] == c;
    } else if 'a' <= c <= 'f' {
      assert all[10 + (c as int - 'a' as int)] == c;
    }
  }

  lemma MetadataInTheseTerms(m: Manifest)
    ensures HasMetadata(m) <==>
            IsLowerHex(m.commit, 40) && IsSha256(m.digest) && IsLowerHex(m.checksum, 64) && m.claims.fixedMetadata
  {
    forall c
      ensures c in "0123456789abcdef" <==> '0' <= c <= '9' || 'a' <= c <= 'f'
    {
      LowerHexDigits(c);
    }
    if |m.digest| == 71 && m.digest[..7] == "sha256:" {
      assert m.digest == "sha256:" + m.digest[7..];
    }
    if digest :| Hexadecimal64(digest) && m.digest == "sha256:" + digest {
      assert m.digest[..7] == "sha256:" && m.digest[7..] == digest;
    }
  }

  /** What each manifest is told, exactly, in the order of the checks. */
  lemma AdmissionAnswers(m: Manifest, previous: seq<Manifest>)
    ensures var answer := Admit(m, previous);
            var named := m.claims.closedShape && HasIdentity(m);
            var older := named && OlderBuild(m.rollbackBuildId, m.buildNumber);
            && (answer == Err(ShapeNotClosed) <==> !m.claims.closedShape)
            && (answer == Err(InvalidBuildIdentity) <==> m.claims.closedShape && !HasIdentity(m))
            && (answer == Err(RollbackNotOlder) <==> named && !OlderBuild(m.rollbackBuildId, m.buildNumber))
            && (answer == Err(InvalidMetadata) <==> older && !HasMetadata(m))
            && (answer == Err(InvalidNestedClaim) <==> older && HasMetadata(m) && !m.claims.nested)
            && (answer == Err(NumberingNotMonotonic) <==>
                  older && HasMetadata(m) && m.claims.nested && !(forall p :: p in previous ==> Supersedes(m, p)))
            && (answer == Ok(m) <==>
                  older && HasMetadata(m) && m.claims.nested && forall p :: p in previous ==> Supersedes(m, p))
  {
    MetadataInTheseTerms(m);
    OlderBuildInTheseTerms(m.rollbackBuildId, m.buildNumber);
  }

  function Identity(m: Manifest): string {
    m.buildId + ":" + m.commit + ":" + m.digest + ":" + m.checksum
  }

  // ---------------------------------------------------------------- selection

  predicate Matches(current: Manifest, m: Manifest) {
    m.buildId == current.rollbackBuildId && m.buildNumber < current.buildNumber && Admitted(m)
  }

  function Matching(current: Manifest, candidates: seq<Manifest>): seq<Manifest> {
    if candidates == [] then []
    else
      (if Matches(current, candidates[0]) then [candidates[0]] else []) + Matching(current, candidates[1..])
  }

  /** The one admissible match, unless another candidate claims its build under another identity. */
  function SelectRollback(current: Manifest, candidates: seq<Manifest>): Option<Manifest> {
    var matching := Matching(current, candidates);
    if |matching| != 1 then None
    else
      var selected := matching[0];
      if exists c :: c in candidates && c != selected && c.buildId == current.rollbackBuildId
                     && Identity(c) != Identity(selected)
      then None
      else Some(selected)
  }

  lemma {:induction false} MatchingCounts(current: Manifest, candidates: seq<Manifest>, m: Manifest)
    ensures multiset(Matching(current, candidates))[m] ==
            if Matches(current, m) then multiset(candidates)[m] else 0
  {
    if candidates != [] {
      MatchingCounts(current, candidates[1..], m);
      assert candidates == [candidates[0]] + candidates[1..];
    }
  }

  lemma SingletonByCount(s: seq<Manifest>, m: Manifest)
    ensures s == [m] <==> multiset(s)[m] == 1 && forall x :: x in s ==> x == m
  {
    if multiset(s)[m] == 1 && (forall x :: x in s ==> x == m) {
      assert m in multiset(s);
      if |s| > 1 {
        assert s == [s[0]] + [s[1]] + s[2..];
        assert s[0] in s && s[1] in s;
      }
    }
  }

  /** What a selection means: one admissible match, and one identity for its build among all candidates. */
  ghost predicate IsTheRollback(current: Manifest, candidates: seq<Manifest>, s: Manifest) {
    && Matches(current, s) && multiset(candidates)[s] == 1
    && forall c :: c in candidates && c.buildId == current.rollbackBuildId ==>
         Identity(c) == Identity(s) && (Matches(current, c) ==> c == s)
  }

  lemma SelectedExactlyWhen(current: Manifest, candidates: seq<Manifest>, s: Manifest)
    ensures SelectRollback(current, candidates) == Some(s) <==> IsTheRollback(current, candidates, s)
  {
    var matching := Matching(current, candidates);
    MatchingCounts(current, candidates, s);
    SingletonByCount(matching, s);
    forall x
      ensures x in matching <==> x in candidates && Matches(current, x)
    {
      MatchingCounts(current, candidates, x);
      assert x in matching <==> x in multiset(matching);
      assert x in candidates <==> x in multiset(candidates);
    }
    if |matching| == 1 {
      assert matching == [matching[0]];
    }
  }

  predicate SameArtifact(a: Manifest, b: Manifest) {
    a.commit == b.commit && a.digest == b.digest && a.checksum == b.checksum
  }

  /** Well-formed manifests of one build have one identity exactly when commit, digest and checksum agree. */
  lemma IdentityTellsArtifactsApart(a: Manifest, b: Manifest)
    requires a.buildId == b.buildId && HasMetadata(a) && HasMetadata(b)
    ensures Identity(a) == Identity(b) <==> SameArtifact(a, b)
  {
    if Identity(a) == Identity(b) {
      var n, d := |a.buildId| + 1, |a.digest|;
      assert Identity(a) == a.buildId + ":" + a.commit + ":" + a.digest + ":" + a.checksum;
      assert |Identity(a)| == n + 40 + 1 + d + 1 + 64 && |Identity(b)| == n + 40 + 1 + |b.digest| + 1 + 64;
      assert Identity(a)[n..n + 40] == a.commit && Identity(b)[n..n + 40] == b.commit;
      assert Identity(a)[n + 41..n + 41 + d] == a.digest && Identity(b)[n + 41..n + 41 + d] == b.digest;
      assert Identity(a)[n + 42 + d..] == a.checksum && Identity(b)[n + 42 + d..] == b.checksum;
    }
  }

  /** Among well-formed candidates of the build, the one admissible match is selected unless another is of another artifact. */
  lemma SelectedUnlessArtifactsDiffer(current: Manifest, candidates: seq<Manifest>, s: Manifest)
    requires forall c :: c in candidates && c.buildId == current.rollbackBuildId ==> HasMetadata(c)
    ensures SelectRollback(current, candidates) == Some(s) <==>
            && Matches(current, s) && multiset(candidates)[s] == 1
            && forall c :: c in candidates && c.buildId == current.rollbackBuildId ==>
                 SameArtifact(c, s) && (Matches(current, c) ==> c == s)
  {
    SelectedExactlyWhen(current, candidates, s);
    if Matches(current, s) && multiset(candidates)[s] == 1 {
      assert s in multiset(candidates);
      forall c | c in candidates && c.buildId == current.rollbackBuildId
        ensures Identity(c) == Identity(s) <==> SameArtifact(c, s)
      {
        IdentityTellsArtifactsApart(c, s);
      }
    }
  }

  /** The selection does not depend on the order of the candidates. */
  lemma SelectionIgnoresOrder(current: Manifest, a: seq<Manifest>, b: seq<Manifest>)
    requires multiset(a) == multiset(b)
    ensures SelectRollback(current, a) == SelectRollback(current, b)
  {
    MultisetToSet(a, b);
    assert forall c :: c in a <==> c in ToSet(a);
    assert forall c :: c in b <==> c in ToSet(b);
    forall s
      ensures SelectRollback(current, a) == Some(s) <==> SelectRollback(current, b) == Some(s)
    {
      SelectedExactlyWhen(current, a, s);
      SelectedExactlyWhen(current, b, s);
    }
  }

  /** Whatever is selected is admitted, older, and named in canonical form. */
  lemma SelectionGoesBack(current: Manifest, candidates: seq<Manifest>)
    ensures var s := SelectRollback(current, candidates);
            s.Some? ==>
              && s.value in candidates && Admitted(s.value)
              && 1 <= s.value.buildNumber < current.buildNumber
              && RollbackNumber(current.rollbackBuildId) == Some(s.value.buildNumber)
              && current.rollbackBuildId == BuildIdFor(s.value.buildNumber)
  {
    var s := SelectRollback(current, candidates);
    if s.Some? {
      SelectedExactlyWhen(current, candidates, s.value);
      assert s.value in multiset(candidates);
      BuildIdRoundTrip(s.value.buildNumber);
    }
  }

  /** A rollback identifier with surplus zeros is admitted in a manifest and yet never selects anything. */
  lemma OnlyCanonicalIdentifiersSelect(current: Manifest, candidates: seq<Manifest>, n: nat)
    requires RollbackNumber(current.rollbackBuildId) == Some(n) && current.rollbackBuildId != BuildIdFor(n)
    ensures SelectRollback(current, candidates) == None
  {
    SelectionGoesBack(current, candidates);
  }

  lemma SurplusZerosAreAdmitted(current: Manifest, candidates: seq<Manifest>, n: nat)
    requires Admitted(current) && n < current.buildNumber
    ensures var padded := current.(rollbackBuildId := PREFIX + (['0'] + PadStart(Decimal(n), 6)));
            Admitted(padded) && SelectRollback(padded, candidates) == None
  {
    var padded := current.(rollbackBuildId := PREFIX + (['0'] + PadStart(Decimal(n), 6)));
    DecimalRoundTrip(n);
    PaddingKeepsTheValue(Decimal(n), 6);
    SurplusZero(PadStart(Decimal(n), 6));
    OnlyCanonicalIdentifiersSelect(padded, candidates, n);
  }

  lemma SurplusZero(digits: string)
    requires AllDigits(digits) && |digits| >= 6
    ensures RollbackNumber(PREFIX + (['0'] + digits)) == DecimalValue(digits)
    ensures PREFIX + (['0'] + digits) != PREFIX + digits
  {
    LeadingZero(digits);
    NumberOfDigits(['0'] + digits);
    assert |PREFIX + (['0'] + digits)| == |PREFIX + digits| + 1;
  }

  /** The build a rollback identifier names, made up from the current manifest. */
  function Named(current: Manifest, n: nat): Manifest {
    current.(buildNumber := n, buildId := BuildIdFor(n), rollbackBuildId := BuildIdFor(0))
  }

  /** An admitted manifest can roll back to anything at all exactly when it names a build canonically. */
  lemma CanSelectExactlyWhenCanonical(current: Manifest)
    requires Admitted(current)
    ensures (exists candidates :: SelectRollback(current, candidates).Some?) <==>
            exists n: nat :: n >= 1 && current.rollbackBuildId == BuildIdFor(n)
  {
    if candidates :| SelectRollback(current, candidates).Some? {
      SelectionGoesBack(current, candidates);
      var n: nat := SelectRollback(current, candidates).value.buildNumber;
      assert current.rollbackBuildId == BuildIdFor(n);
    }
    if n: nat :| n >= 1 && current.rollbackBuildId == BuildIdFor(n) {
      NamedIsSelected(current, n);
    }
  }

  lemma NamedIsSelected(current: Manifest, n: nat)
    requires Admitted(current) && n >= 1 && current.rollbackBuildId == BuildIdFor(n)
    ensures SelectRollback(current, [Named(current, n)]) == Some(Named(current, n))
  {
    BuildIdRoundTrip(n);
    BuildIdRoundTrip(0);
    assert Matches(current, Named(current, n));
    SelectedExactlyWhen(current, [Named(current, n)], Named(current, n));
  }

  /** Rolling back again and again. */
  function Rollbacks(current: Manifest, candidates: seq<Manifest>): seq<Manifest>
    decreases current.buildNumber
  {
    SelectionGoesBack(current, candidates);
    var s := SelectRollback(current, candidates);
    if s.None? then [] else [s.value] + Rollbacks(s.value, candidates)
  }

  /** Build numbers fall strictly all the way, so there are fewer rollbacks than builds before this one. */
  lemma {:induction false} RollbacksDescend(current: Manifest, candidates: seq<Manifest>)
    ensures var chain := [current] + Rollbacks(current, candidates);
            && (forall i, j :: 0 <= i < j < |chain| ==> chain[i].buildNumber > chain[j].buildNumber)
            && (forall i :: 0 < i < |chain| ==> Admitted(chain[i]) && chain[i] in candidates)
            && (current.buildNumber >= 1 ==> |chain| <= current.buildNumber)
    decreases current.buildNumber
  {
    SelectionGoesBack(current, candidates);
    var s := SelectRollback(current, candidates);
    if s.Some? {
      RollbacksDescend(s.value, candidates);
      var rest := [s.value] + Rollbacks(s.value, candidates);
      forall j | 0 <= j < |rest|
        ensures current.buildNumber > rest[j].buildNumber && Admitted(rest[j]) && rest[j] in candidates
      {
        if j > 0 {
          assert rest[0].buildNumber > rest[j].buildNumber;
        }
      }
      assert Rollbacks(current, candidates) == rest;
    }
  }

  // ---------------------------------------------------------------- a history of builds

  /** Each manifest was admitted against all before it. */
  ghost predicate IsHistory(history: seq<Manifest>) {
    forall i :: 0 <= i < |history| ==> Admit(history[i], history[..i]).Ok?
  }

  lemma HistoryIncreases(history: seq<Manifest>, i: nat, j: nat)
    requires IsHistory(history) && i < |history| && j < |history|
    ensures Admitted(history[i])
    ensures i < j ==> history[i].buildNumber < history[j].buildNumber && history[i].buildId != history[j].buildId
  {
    assert Admit(history[i], history[..i]).Ok? && Admit(history[j], history[..j]).Ok?;
    if i < j {
      assert history[..j][i] == history[i];
    }
  }

  lemma OneOfItsBuild(history: seq<Manifest>, s: Manifest)
    requires IsHistory(history) && s in history
    ensures Admitted(s) && multiset(history)[s] == 1
    ensures forall c :: c in history && c.buildId == s.buildId ==> c == s
  {
    var i :| 0 <= i < |history| && history[i] == s;
    HistoryIncreases(history, i, i);
    HistoryIsDistinct(history);
    DistinctMultiset(history);
    assert s in multiset(history);
    forall c | c in history && c.buildId == s.buildId
      ensures c == s
    {
      var j :| 0 <= j < |history| && history[j] == c;
      HistoryIncreases(history, i, j);
      HistoryIncreases(history, j, i);
    }
  }

  lemma NamedBuildMatches(current: Manifest, s: Manifest)
    requires Admitted(current) && Admitted(s) && s.buildId == current.rollbackBuildId
    ensures Matches(current, s)
  {
    BuildIdRoundTrip(s.buildNumber);
  }

  /** Within its own history, a build rolls back exactly to the build it names, whenever that was admitted. */
  lemma RollbackWithinHistory(history: seq<Manifest>, current: Manifest, s: Manifest)
    requires IsHistory(history) && Admitted(current)
    ensures SelectRollback(current, history) == Some(s) <==> s in history && s.buildId == current.rollbackBuildId
  {
    SelectedExactlyWhen(current, history, s);
    if s in history && s.buildId == current.rollbackBuildId {
      OneOfItsBuild(history, s);
      NamedBuildMatches(current, s);
    }
    if IsTheRollback(current, history, s) {
      assert s in multiset(history);
    }
  }

  lemma HistoryIsDistinct(history: seq<Manifest>)
    requires IsHistory(history)
    ensures Distinct(history)
  {
    forall i, j | 0 <= i < j < |history|
      ensures history[i] != history[j]
    {
      HistoryIncreases(history, i, j);
    }
  }
}
