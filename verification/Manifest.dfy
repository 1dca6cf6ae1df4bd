/** Snapshot members, their manifest text, and what the text tells about them. */
module SnapshotManifest {
  import opened Text

  // ---------------------------------------------------------------- Members

  datatype Member = Member(
    sourceID: Uuid, sourceRevisionID: Uuid, documentID: Uuid, officialOrigin: string, capturedAt: int, contentSHA256: string)

  /** The member table's checks on one row. */
  predicate StorableMember(m: Member) {
    (exists i | 0 <= i < |m.officialOrigin| :: m.officialOrigin[i] != ' ') && IsSha256(m.contentSHA256)
  }

  // ---------------------------------------------------------------- Sorting by source

  function Insert(m: Member, sorted: seq<Member>): seq<Member> {
    if sorted == [] || m.sourceID < sorted[0].sourceID then [m] + sorted else [sorted[0]] + Insert(m, sorted[1..])
  }

  /** Members in source order, as the member table gives them back. */
  function BySource(members: seq<Member>): seq<Member> {
    if members == [] then [] else Insert(members[|members| - 1], BySource(members[..|members| - 1]))
  }

  ghost predicate Ascending(members: seq<Member>) {
    forall i, j | 0 <= i < j < |members| :: members[i].sourceID < members[j].sourceID
  }

  ghost predicate DistinctSources(members: seq<Member>) {
    forall i, j | 0 <= i < j < |members| :: members[i].sourceID != members[j].sourceID
  }

  /** The same members, whatever their order. */
  ghost predicate SameMembers(a: seq<Member>, b: seq<Member>) {
    forall m :: m in a <==> m in b
  }

  lemma {:induction false} InsertMembers(m: Member, sorted: seq<Member>)
    ensures SameMembers(Insert(m, sorted), [m] + sorted)
  {
    if sorted != [] && !(m.sourceID < sorted[0].sourceID) {
      InsertMembers(m, sorted[1..]);
      assert sorted == [sorted[0]] + sorted[1..];
    }
  }

  lemma {:induction false} InsertAscends(m: Member, sorted: seq<Member>)
    requires Ascending(sorted) && forall s | s in sorted :: s.sourceID != m.sourceID
    ensures Ascending(Insert(m, sorted))
  {
    if sorted != [] && !(m.sourceID < sorted[0].sourceID) {
      InsertAscends(m, sorted[1..]);
      InsertMembers(m, sorted[1..]);
      forall s | s in Insert(m, sorted[1..]) ensures sorted[0].sourceID < s.sourceID {
        assert s in [m] + sorted[1..];
      }
    }
  }

  lemma {:induction false} BySourceKeeps(members: seq<Member>)
    ensures SameMembers(BySource(members), members)
    ensures DistinctSources(members) ==> Ascending(BySource(members))
  {
    if members != [] {
      var earlier, last := members[..|members| - 1], members[|members| - 1];
      BySourceKeeps(earlier);
      InsertMembers(last, BySource(earlier));
      assert members == earlier + [last];
      if DistinctSources(members) {
        InsertAscends(last, BySource(earlier));
      }
    }
  }

  lemma AscendingHead(a: seq<Member>, b: seq<Member>)
    requires a != [] && Ascending(a) && Ascending(b) && SameMembers(a, b)
    ensures b != [] && a[0] == b[0]
  {
    assert a[0] in b;
    assert b[0] in a;
  }

  /** Two strictly ascending lists of the same members are the same list. */
  lemma {:induction false} AscendingUnique(a: seq<Member>, b: seq<Member>)
    requires Ascending(a) && Ascending(b) && SameMembers(a, b)
    ensures a == b
  {
    if a == [] {
      if b != [] {
        AscendingHead(b, a);
      }
    } else {
      AscendingHead(a, b);
      assert a == [a[0]] + a[1..] && b == [b[0]] + b[1..];
      forall m ensures m in a[1..] <==> m in b[1..] {
        if m in a[1..] {
          assert m in a;
        }
        if m in b[1..] {
          assert m in b;
        }
      }
      AscendingUnique(a[1..], b[1..]);
    }
  }

  lemma BySourceIgnoresOrder(members: seq<Member>, permuted: seq<Member>)
    requires multiset(members) == multiset(permuted) && DistinctSources(members) && DistinctSources(permuted)
    ensures BySource(members) == BySource(permuted)
  {
    forall m ensures m in members <==> m in permuted { assert m in multiset(members) <==> m in multiset(permuted); }
    BySourceKeeps(members);
    BySourceKeeps(permuted);
    AscendingUnique(BySource(members), BySource(permuted));
  }

  lemma AscendingSorts(members: seq<Member>)
    requires Ascending(members)
    ensures BySource(members) == members
  {
    BySourceKeeps(members);
    AscendingUnique(BySource(members), members);
  }

  // ---------------------------------------------------------------- The manifest

  function MemberLine(m: Member, stamp: int -> string): string {
    Join([UuidString(m.sourceID), UuidString(m.sourceRevisionID), UuidString(m.documentID), m.officialOrigin,
          stamp(m.capturedAt), m.contentSHA256], '|')
  }

  function MemberLines(members: seq<Member>, stamp: int -> string): seq<string> {
    seq(|members|, i requires 0 <= i < |members| => MemberLine(members[i], stamp))
  }

  /** What is hashed: one line per member, in source order. */
  function ManifestText(members: seq<Member>, stamp: int -> string): string {
    Join(MemberLines(BySource(members), stamp), '\n')
  }

  function ManifestOf(members: seq<Member>, stamp: int -> string, sha: string -> string): string {
    sha(ManifestText(members, stamp))
  }

  /** The manifest does not depend on the order in which the members are listed. */
  lemma ManifestIgnoresOrder(members: seq<Member>, permuted: seq<Member>, stamp: int -> string, sha: string -> string)
    requires multiset(members) == multiset(permuted) && DistinctSources(members) && DistinctSources(permuted)
    ensures ManifestOf(members, stamp, sha) == ManifestOf(permuted, stamp, sha)
  {
    BySourceIgnoresOrder(members, permuted);
  }

  // ---------------------------------------------------------------- Replacing one member

  /** The first slot of the candidate's source is overwritten; without one the candidate is appended. */
  function Replace(members: seq<Member>, candidate: Member): seq<Member> {
    if members == [] then [candidate]
    else if members[0].sourceID == candidate.sourceID then [candidate] + members[1..]
    else [members[0]] + Replace(members[1..], candidate)
  }

  method ReplaceMember(members: seq<Member>, candidate: Member) returns (updated: seq<Member>)
    ensures updated == Replace(members, candidate)
  {
    updated := members;
    for index := 0 to |updated|
      invariant updated == members
      invariant Replace(members, candidate) == members[..index] + Replace(members[index..], candidate)
    {
      if updated[index].sourceID == candidate.sourceID {
        updated := updated[index := candidate];
        assert Replace(members[index..], candidate) == [candidate] + members[index..][1..];
        return;
      }
      assert members[index..][1..] == members[index + 1..];
      assert members[..index + 1] == members[..index] + [members[index]];
    }
    assert members[|members|..] == [] && members[..|members|] == members;
    updated := updated + [candidate];
  }

  /** Replacing changes exactly one source: every other member stays, the candidate comes in. */
  lemma {:induction false} ReplaceMembers(members: seq<Member>, candidate: Member)
    requires DistinctSources(members)
    ensures forall m :: m in Replace(members, candidate) <==> m == candidate || (m in members && m.sourceID != candidate.sourceID)
    ensures DistinctSources(Replace(members, candidate)) && Replace(members, candidate) != []
  {
    if members != [] {
      var head, rest := members[0], members[1..];
      assert members == [head] + rest;
      forall m | m in rest ensures m.sourceID != head.sourceID {
        var i :| 0 <= i < |rest| && rest[i] == m;
        assert members[i + 1] == m;
      }
      if head.sourceID != candidate.sourceID {
        ReplaceMembers(rest, candidate);
        assert forall m | m in Replace(rest, candidate) :: m.sourceID != head.sourceID;
      }
    }
  }

  /** Replacing a member by itself changes nothing. */
  lemma {:induction false} ReplaceSame(members: seq<Member>, candidate: Member)
    requires DistinctSources(members) && candidate in members
    ensures Replace(members, candidate) == members
  {
    var i :| 0 <= i < |members| && members[i] == candidate;
    assert members == [members[0]] + members[1..];
    if members[0].sourceID != candidate.sourceID {
      assert members[1..][i - 1] == candidate;
      ReplaceSame(members[1..], candidate);
    } else {
      assert i == 0;
    }
  }

  // ---------------------------------------------------------------- The manifest in code

  function InsertByText(m: Member, sorted: seq<Member>): seq<Member> {
    if sorted == [] || Less(UuidString(m.sourceID), UuidString(sorted[0].sourceID)) then [m] + sorted
    else [sorted[0]] + InsertByText(m, sorted[1..])
  }

  /** The manifest's own sort: by the text of the source identifier. */
  function ByText(members: seq<Member>): seq<Member> {
    if members == [] then [] else InsertByText(members[|members| - 1], ByText(members[..|members| - 1]))
  }

  lemma {:induction false} InsertByTextIsInsert(m: Member, sorted: seq<Member>)
    ensures InsertByText(m, sorted) == Insert(m, sorted)
  {
    if sorted != [] {
      UuidStringOrder(m.sourceID, sorted[0].sourceID);
      InsertByTextIsInsert(m, sorted[1..]);
    }
  }

  /** Sorting by identifier text and sorting by identifier agree. */
  lemma {:induction false} ByTextIsBySource(members: seq<Member>)
    ensures ByText(members) == BySource(members)
  {
    if members != [] {
      ByTextIsBySource(members[..|members| - 1]);
      InsertByTextIsInsert(members[|members| - 1], BySource(members[..|members| - 1]));
    }
  }

  method ManifestSHA256(members: seq<Member>, stamp: int -> string, sha: string -> string) returns (digest: string)
    ensures digest == ManifestOf(members, stamp, sha)
  {
    var ordered := ByText(members);
    ByTextIsBySource(members);
    var lines: seq<string> := [];
    for index := 0 to |ordered|
      invariant lines == MemberLines(ordered, stamp)[..index]
    {
      lines := lines + [MemberLine(ordered[index], stamp)];
    }
    assert lines == MemberLines(ordered, stamp);
    digest := sha(Join(lines, '\n'));
  }


  // ---------------------------------------------------------------- A line identifies its member

  /** Instants print differently, and without the two separators. */
  ghost predicate Stamps(stamp: int -> string) {
    && (forall t :: '|' !in stamp(t) && '\n' !in stamp(t))
    && forall t, u :: StampsApart(stamp, t, u)
  }

  ghost predicate StampsApart(stamp: int -> string, t: int, u: int) {
    stamp(t) == stamp(u) ==> t == u
  }

  lemma DecimalStampsQualify()
    ensures Stamps(ItoaInt)
  {
    forall t ensures '|' !in ItoaInt(t) && '\n' !in ItoaInt(t) {
      ItoaIntHasNo(t, '|');
      ItoaIntHasNo(t, '\n');
    }
    forall t, u ensures StampsApart(ItoaInt, t, u) {
      if ItoaInt(t) == ItoaInt(u) {
        ItoaIntInjective(t, u);
      }
    }
  }

  /** The three identifiers, each with its bar. */
  function LineHead(m: Member): (head: string)
    ensures |head| == 111
  {
    UuidStringShape(m.sourceID);
    UuidStringShape(m.sourceRevisionID);
    UuidStringShape(m.documentID);
    UuidString(m.sourceID) + "|" + UuidString(m.sourceRevisionID) + "|" + UuidString(m.documentID) + "|"
  }

  lemma JoinStep(part: string, rest: seq<string>)
    requires rest != []
    ensures Join([part] + rest, '|') == part + "|" + Join(rest, '|')
  {
    assert ([part] + rest)[1..] == rest;
  }

  lemma LineParts(m: Member, stamp: int -> string)
    ensures MemberLine(m, stamp) == LineHead(m) + (m.officialOrigin + "|" + stamp(m.capturedAt) + ("|" + m.contentSHA256))
  {
    var s, r, d, o := UuidString(m.sourceID), UuidString(m.sourceRevisionID), UuidString(m.documentID), m.officialOrigin;
    var at, h := stamp(m.capturedAt), m.contentSHA256;
    JoinStep(at, [h]);
    JoinStep(o, [at, h]);
    JoinStep(d, [o, at, h]);
    JoinStep(r, [d, o, at, h]);
    JoinStep(s, [r, d, o, at, h]);
    assert [at] + [h] == [at, h] && [o] + [at, h] == [o, at, h] && [d] + [o, at, h] == [d, o, at, h];
    assert [r] + [d, o, at, h] == [r, d, o, at, h] && [s] + [r, d, o, at, h] == [s, r, d, o, at, h];
  }

  lemma HeadIdentifies(a: Member, b: Member)
    requires LineHead(a) == LineHead(b)
    ensures a.sourceID == b.sourceID && a.sourceRevisionID == b.sourceRevisionID && a.documentID == b.documentID
  {
    HeadPieces(a);
    HeadPieces(b);
    UuidStringOrder(a.sourceID, b.sourceID);
    UuidStringOrder(a.sourceRevisionID, b.sourceRevisionID);
    UuidStringOrder(a.documentID, b.documentID);
  }

  lemma HeadPieces(m: Member)
    ensures LineHead(m)[..36] == UuidString(m.sourceID)
    ensures LineHead(m)[37..73] == UuidString(m.sourceRevisionID)
    ensures LineHead(m)[74..110] == UuidString(m.documentID)
  {
    UuidStringShape(m.sourceID);
    UuidStringShape(m.sourceRevisionID);
    UuidStringShape(m.documentID);
  }

  lemma NoBarBehind(x: string, s: string)
    requires '|' !in s
    ensures (x + "|" + s)[|x|] == '|' && forall i | |x| < i < |x + "|" + s| :: (x + "|" + s)[i] != '|'
  {
    forall i | |x| < i < |x + "|" + s| ensures (x + "|" + s)[i] != '|' { assert (x + "|" + s)[i] == s[i - |x| - 1]; }
  }

  /** The last bar cuts a text in one way, whatever stands before it. */
  lemma LastBarCuts(x: string, y: string, s: string, t: string)
    requires x + "|" + s == y + "|" + t && '|' !in s && '|' !in t
    ensures x == y && s == t
  {
    NoBarBehind(x, s);
    NoBarBehind(y, t);
    EqualCuts(x + "|", y + "|", s, t);
    EqualCuts(x, y, "|", "|");
  }

  lemma EqualCuts(a: string, b: string, s: string, t: string)
    requires a + s == b + t && |a| == |b|
    ensures a == b && s == t
  {
    assert a == (a + s)[..|a|] && b == (b + t)[..|b|];
    assert s == (a + s)[|a|..] && t == (b + t)[|b|..];
  }

  /** Whatever its origin holds, a member is recovered from its line. */
  lemma MemberLineIdentifies(a: Member, b: Member, stamp: int -> string)
    requires Stamps(stamp) && IsSha256(a.contentSHA256) && IsSha256(b.contentSHA256)
    requires MemberLine(a, stamp) == MemberLine(b, stamp)
    ensures a == b
  {
    var x, y := a.officialOrigin + "|" + stamp(a.capturedAt), b.officialOrigin + "|" + stamp(b.capturedAt);
    LineParts(a, stamp);
    LineParts(b, stamp);
    EqualCuts(LineHead(a), LineHead(b), x + ("|" + a.contentSHA256), y + ("|" + b.contentSHA256));
    HeadIdentifies(a, b);
    assert |x| == |y|;
    EqualCuts(x, y, "|" + a.contentSHA256, "|" + b.contentSHA256);
    EqualCuts("|", "|", a.contentSHA256, b.contentSHA256);
    LastBarCuts(a.officialOrigin, b.officialOrigin, stamp(a.capturedAt), stamp(b.capturedAt));
    assert StampsApart(stamp, a.capturedAt, b.capturedAt);
  }

  // ---------------------------------------------------------------- One slot of the list shows in the text

  ghost predicate Hashed(members: seq<Member>) {
    forall m | m in members :: IsSha256(m.contentSHA256)
  }

  /** The characters of all parts together. */
  function Total(parts: seq<string>): nat {
    if parts == [] then 0 else |parts[0]| + Total(parts[1..])
  }

  lemma {:induction false} TotalConcat(a: seq<string>, b: seq<string>)
    ensures Total(a + b) == Total(a) + Total(b)
  {
    if a == [] {
      assert a + b == b;
    } else {
      TotalConcat(a[1..], b);
      assert (a + b)[1..] == a[1..] + b;
    }
  }

  lemma {:induction false} JoinLength(parts: seq<string>, separator: char)
    requires parts != []
    ensures |Join(parts, separator)| == Total(parts) + |parts| - 1
  {
    if |parts| > 1 {
      JoinLength(parts[1..], separator);
    } else {
      assert parts[1..] == [];
    }
  }

  /** One part more makes the joined text longer. */
  lemma InsertedPartLengthens(before: seq<string>, part: string, after: seq<string>, separator: char)
    requires before + after != []
    ensures |Join(before + [part] + after, separator)| > |Join(before + after, separator)|
  {
    JoinLength(before + [part] + after, separator);
    JoinLength(before + after, separator);
    TotalConcat(before + [part], after);
    TotalConcat(before, [part]);
    TotalConcat(before, after);
    assert [part][1..] == [];
  }

  /** Texts that differ in one part differ. */
  lemma {:induction false} ChangedPartShows(parts: seq<string>, k: nat, part: string, separator: char)
    requires k < |parts| && Join(parts[k := part], separator) == Join(parts, separator)
    ensures part == parts[k]
  {
    if |parts| > 1 {
      var changed := parts[k := part];
      if k == 0 {
        assert changed[1..] == parts[1..];
        EqualEnds(part + [separator], parts[0] + [separator], Join(parts[1..], separator));
        EqualEnds(part, parts[0], [separator]);
      } else {
        assert changed[1..] == parts[1..][k - 1 := part] && changed[0] == parts[0];
        EqualCuts(parts[0] + [separator], parts[0] + [separator], Join(changed[1..], separator), Join(parts[1..], separator));
        ChangedPartShows(parts[1..], k - 1, part, separator);
      }
    }
  }

  lemma EqualEnds(a: string, b: string, end: string)
    requires a + end == b + end
    ensures a == b
  {
    EqualCuts(a, b, end, end);
  }

  lemma {:induction false} InsertPlace(m: Member, sorted: seq<Member>) returns (place: nat)
    ensures place <= |sorted| && Insert(m, sorted) == sorted[..place] + [m] + sorted[place..]
  {
    if sorted == [] || m.sourceID < sorted[0].sourceID {
      place := 0;
    } else {
      var later := InsertPlace(m, sorted[1..]);
      place := later + 1;
      assert sorted == [sorted[0]] + sorted[1..];
    }
  }

  /** Without a slot of its source the candidate is appended. */
  lemma {:induction false} ReplaceAppends(members: seq<Member>, candidate: Member)
    requires forall m | m in members :: m.sourceID != candidate.sourceID
    ensures Replace(members, candidate) == members + [candidate]
  {
    if members != [] {
      ReplaceAppends(members[1..], candidate);
      assert members == [members[0]] + members[1..];
    }
  }

  lemma {:induction false} ReplaceOverwrites(members: seq<Member>, candidate: Member, k: nat)
    requires k < |members| && DistinctSources(members) && members[k].sourceID == candidate.sourceID
    ensures Replace(members, candidate) == members[k := candidate]
  {
    if k > 0 {
      assert members[0].sourceID != members[k].sourceID;
      ReplaceOverwrites(members[1..], candidate, k - 1);
      assert members[k := candidate] == [members[0]] + members[1..][k - 1 := candidate];
    }
  }

  lemma OverwrittenLine(members: seq<Member>, candidate: Member, k: nat, stamp: int -> string)
    requires k < |members|
    ensures MemberLines(members[k := candidate], stamp) == MemberLines(members, stamp)[k := MemberLine(candidate, stamp)]
  {
  }

  lemma OverwrittenTextDiffers(members: seq<Member>, candidate: Member, k: nat, stamp: int -> string)
    requires Ascending(members) && Hashed(members) && IsSha256(candidate.contentSHA256) && Stamps(stamp)
    requires k < |members| && members[k].sourceID == candidate.sourceID
    requires ManifestText(Replace(members, candidate), stamp) == ManifestText(members, stamp)
    ensures candidate == members[k]
  {
    ReplaceOverwrites(members, candidate, k);
    AscendingSorts(members);
    AscendingSorts(members[k := candidate]);
    OverwrittenLine(members, candidate, k, stamp);
    ChangedPartShows(MemberLines(members, stamp), k, MemberLine(candidate, stamp), '\n');
    MemberLineIdentifies(candidate, members[k], stamp);
  }

  lemma LinesConcat(a: seq<Member>, b: seq<Member>, stamp: int -> string)
    ensures MemberLines(a + b, stamp) == MemberLines(a, stamp) + MemberLines(b, stamp)
  {
  }

  lemma LinesAround(before: seq<Member>, m: Member, after: seq<Member>, stamp: int -> string)
    ensures MemberLines(before + [m] + after, stamp) == MemberLines(before, stamp) + [MemberLine(m, stamp)] + MemberLines(after, stamp)
  {
    LinesConcat(before + [m], after, stamp);
    LinesConcat(before, [m], stamp);
    assert MemberLines([m], stamp) == [MemberLine(m, stamp)];
  }

  lemma InsertedLineLengthens(candidate: Member, sorted: seq<Member>, stamp: int -> string)
    requires sorted != []
    ensures |Join(MemberLines(Insert(candidate, sorted), stamp), '\n')| > |Join(MemberLines(sorted, stamp), '\n')|
  {
    var place := InsertPlace(candidate, sorted);
    var before, after := sorted[..place], sorted[place..];
    LinesAround(before, candidate, after, stamp);
    LinesConcat(before, after, stamp);
    assert sorted == before + after;
    assert |MemberLines(before, stamp) + MemberLines(after, stamp)| > 0;
    InsertedPartLengthens(MemberLines(before, stamp), MemberLine(candidate, stamp), MemberLines(after, stamp), '\n');
  }

  lemma AppendedTextDiffers(members: seq<Member>, candidate: Member, stamp: int -> string)
    requires Ascending(members) && members != [] && forall m | m in members :: m.sourceID != candidate.sourceID
    ensures ManifestText(Replace(members, candidate), stamp) != ManifestText(members, stamp)
  {
    ReplaceAppends(members, candidate);
    AscendingSorts(members);
    assert (members + [candidate])[..|members|] == members;
    InsertedLineLengthens(candidate, members, stamp);
  }

  /** Overriding or extending a list by a new member always changes its text, line breaks or not. */
  lemma ReplacementShows(members: seq<Member>, candidate: Member, stamp: int -> string)
    requires Ascending(members) && members != [] && Hashed(members) && IsSha256(candidate.contentSHA256) && Stamps(stamp)
    ensures ManifestText(Replace(members, candidate), stamp) == ManifestText(members, stamp) <==> candidate in members
  {
    if candidate in members {
      ReplaceSame(members, candidate);
    } else if ManifestText(Replace(members, candidate), stamp) == ManifestText(members, stamp) {
      if k: nat :| k < |members| && members[k].sourceID == candidate.sourceID {
        OverwrittenTextDiffers(members, candidate, k, stamp);
      } else {
        AppendedTextDiffers(members, candidate, stamp);
      }
    }
  }

  // ---------------------------------------------------------------- Line breaks in origins

  /** How many line breaks a text holds. */
  function BreakCount(s: string): nat {
    if s == "" then 0 else (if s[0] == '\n' then 1 else 0) + BreakCount(s[1..])
  }

  lemma {:induction false} BreaksAdd(s: string, t: string)
    ensures BreakCount(s + t) == BreakCount(s) + BreakCount(t)
  {
    if s == "" {
      assert s + t == t;
    } else {
      BreaksAdd(s[1..], t);
      assert (s + t)[1..] == s[1..] + t;
    }
  }

  lemma {:induction false} NoBreaks(s: string)
    ensures BreakCount(s) == 0 <==> '\n' !in s
  {
    if s != "" {
      NoBreaks(s[1..]);
      assert s == [s[0]] + s[1..];
    }
  }

  /** A line holds the breaks of its origin and no others. */
  lemma LineBreaks(m: Member, stamp: int -> string)
    requires Stamps(stamp) && IsSha256(m.contentSHA256)
    ensures BreakCount(MemberLine(m, stamp)) == BreakCount(m.officialOrigin)
  {
    LineParts(m, stamp);
    HeadHasNoBreak(m);
    NoBreaks(stamp(m.capturedAt));
    NoBreaks(m.contentSHA256);
    BreaksAdd("|", m.contentSHA256);
    BreaksAdd(m.officialOrigin, "|");
    BreaksAdd(m.officialOrigin + "|", stamp(m.capturedAt));
    BreaksAdd(m.officialOrigin + "|" + stamp(m.capturedAt), "|" + m.contentSHA256);
    BreaksAdd(LineHead(m), m.officialOrigin + "|" + stamp(m.capturedAt) + ("|" + m.contentSHA256));
    NoBreaks("|");
  }

  lemma HeadHasNoBreak(m: Member)
    ensures BreakCount(LineHead(m)) == 0
  {
    UuidStringShape(m.sourceID);
    UuidStringShape(m.sourceRevisionID);
    UuidStringShape(m.documentID);
    NoBreaks(LineHead(m));
  }

  /** Lines with equally many breaks are cut off a text in one way. */
  lemma BreaksCut(x: string, y: string, u: string, w: string)
    requires x + "\n" + u == y + "\n" + w && BreakCount(x) == BreakCount(y)
    ensures x == y && u == w
  {
    NotShorter(x, y, u, w);
    NotShorter(y, x, w, u);
    EqualCuts(x + "\n", y + "\n", u, w);
    EqualCuts(x, y, "\n", "\n");
  }

  lemma NotShorter(x: string, y: string, u: string, w: string)
    requires x + "\n" + u == y + "\n" + w && BreakCount(y) <= BreakCount(x)
    ensures |x| >= |y|
  {
    if |x| < |y| {
      ShorterHasFewer(x, y, u, w);
    }
  }

  lemma ShorterHasFewer(x: string, y: string, u: string, w: string)
    requires x + "\n" + u == y + "\n" + w && |x| < |y|
    ensures BreakCount(x) < BreakCount(y)
  {
    var more := y[|x| + 1..];
    BeginsWithBreak(x, y, u, w);
    BreaksAdd(x + "\n", more);
    BreaksAdd(x, "\n");
    NoBreaks("\n");
  }

  lemma BeginsWithBreak(x: string, y: string, u: string, w: string)
    requires x + "\n" + u == y + "\n" + w && |x| < |y|
    ensures y == x + "\n" + y[|x| + 1..]
  {
    EqualCuts((x + "\n" + u)[..|y|], y, (x + "\n" + u)[|y|..], "\n" + w);
    assert y[..|x|] == x && y[|x|] == '\n';
  }

  lemma {:induction false} JoinedLinesAgree(a: seq<string>, b: seq<string>)
    requires |a| == |b| && Join(a, '\n') == Join(b, '\n')
    requires forall i | 0 <= i < |a| :: BreakCount(a[i]) == BreakCount(b[i])
    ensures a == b
  {
    if |a| > 1 {
      BreaksCut(a[0], b[0], Join(a[1..], '\n'), Join(b[1..], '\n'));
      JoinedLinesAgree(a[1..], b[1..]);
      assert a == [a[0]] + a[1..] && b == [b[0]] + b[1..];
    }
  }

  /** The line breaks in the origins of the members, in source order. */
  function Breaks(members: seq<Member>): seq<nat> {
    var sorted := BySource(members);
    seq(|sorted|, i requires 0 <= i < |sorted| => BreakCount(sorted[i].officialOrigin))
  }

  /** Equal texts come from equal members exactly when the origins hold line breaks in the same places. */
  lemma EqualTextsMeanEqualMembersExactly(a: seq<Member>, b: seq<Member>, stamp: int -> string)
    requires Hashed(a) && Hashed(b) && Stamps(stamp) && ManifestText(a, stamp) == ManifestText(b, stamp)
    ensures BySource(a) == BySource(b) <==> Breaks(a) == Breaks(b)
  {
    if Breaks(a) == Breaks(b) {
      BySourceKeeps(a);
      BySourceKeeps(b);
      SameBreaks(a, b);
      SortedTextsAgree(BySource(a), BySource(b), stamp);
    }
  }

  lemma SameBreaks(a: seq<Member>, b: seq<Member>)
    requires Breaks(a) == Breaks(b)
    ensures |BySource(a)| == |BySource(b)|
    ensures forall i | 0 <= i < |BySource(a)| :: BreakCount(BySource(a)[i].officialOrigin) == BreakCount(BySource(b)[i].officialOrigin)
  {
    assert |Breaks(a)| == |BySource(a)| && |Breaks(b)| == |BySource(b)|;
    forall i | 0 <= i < |BySource(a)| ensures BreakCount(BySource(a)[i].officialOrigin) == BreakCount(BySource(b)[i].officialOrigin) {
      assert Breaks(a)[i] == Breaks(b)[i];
    }
  }

  lemma SortedTextsAgree(xs: seq<Member>, ys: seq<Member>, stamp: int -> string)
    requires Hashed(xs) && Hashed(ys) && Stamps(stamp) && |xs| == |ys|
    requires forall i | 0 <= i < |xs| :: BreakCount(xs[i].officialOrigin) == BreakCount(ys[i].officialOrigin)
    requires Join(MemberLines(xs, stamp), '\n') == Join(MemberLines(ys, stamp), '\n')
    ensures xs == ys
  {
    var a, b := MemberLines(xs, stamp), MemberLines(ys, stamp);
    forall i | 0 <= i < |a| ensures BreakCount(a[i]) == BreakCount(b[i]) {
      LineBreaks(xs[i], stamp);
      LineBreaks(ys[i], stamp);
    }
    JoinedLinesAgree(a, b);
    forall i | 0 <= i < |xs| ensures xs[i] == ys[i] {
      assert a[i] == b[i];
      MemberLineIdentifies(xs[i], ys[i], stamp);
    }
  }

  /** No origin holds a line break, as no normalised web address and no file digest does. */
  ghost predicate BreakFree(members: seq<Member>) {
    forall m | m in members :: '\n' !in m.officialOrigin
  }

  lemma BreakFreeLines(sorted: seq<Member>, stamp: int -> string)
    requires BreakFree(sorted) && Hashed(sorted) && Stamps(stamp)
    ensures forall i | 0 <= i < |MemberLines(sorted, stamp)| :: '\n' !in MemberLines(sorted, stamp)[i]
  {
    forall i | 0 <= i < |sorted| ensures '\n' !in MemberLine(sorted[i], stamp) {
      LineBreaks(sorted[i], stamp);
      NoBreaks(sorted[i].officialOrigin);
      NoBreaks(MemberLine(sorted[i], stamp));
    }
  }

  lemma SomeLineIsSomeText(sorted: seq<Member>, stamp: int -> string)
    requires sorted != []
    ensures Join(MemberLines(sorted, stamp), '\n') != ""
  {
    LineParts(sorted[0], stamp);
    JoinLength(MemberLines(sorted, stamp), '\n');
    assert |MemberLines(sorted, stamp)[0]| > 0;
  }

  /** Without line breaks in origins the manifest text identifies the members, up to order. */
  lemma ManifestTextIdentifies(a: seq<Member>, b: seq<Member>, stamp: int -> string)
    requires Hashed(a) && Hashed(b) && BreakFree(a) && BreakFree(b) && Stamps(stamp)
    ensures ManifestText(a, stamp) == ManifestText(b, stamp) <==> BySource(a) == BySource(b)
    ensures ManifestText(a, stamp) == ManifestText(b, stamp) ==> SameMembers(a, b)
  {
    BySourceKeeps(a);
    BySourceKeeps(b);
    if ManifestText(a, stamp) == ManifestText(b, stamp) {
      SameLineCount(BySource(a), BySource(b), stamp);
      forall i | 0 <= i < |BySource(a)|
        ensures BreakCount(BySource(a)[i].officialOrigin) == BreakCount(BySource(b)[i].officialOrigin)
      {
        NoBreaks(BySource(a)[i].officialOrigin);
        NoBreaks(BySource(b)[i].officialOrigin);
      }
      SortedTextsAgree(BySource(a), BySource(b), stamp);
    }
  }

  lemma SameLineCount(xs: seq<Member>, ys: seq<Member>, stamp: int -> string)
    requires Hashed(xs) && Hashed(ys) && BreakFree(xs) && BreakFree(ys) && Stamps(stamp)
    requires Join(MemberLines(xs, stamp), '\n') == Join(MemberLines(ys, stamp), '\n')
    ensures |xs| == |ys|
  {
    if xs != [] {
      SomeLineIsSomeText(xs, stamp);
    }
    if ys != [] {
      SomeLineIsSomeText(ys, stamp);
    }
    if xs != [] && ys != [] {
      BreakFreeLines(xs, stamp);
      BreakFreeLines(ys, stamp);
      JoinInjective(MemberLines(xs, stamp), MemberLines(ys, stamp), '\n');
      assert |MemberLines(xs, stamp)| == |xs| && |MemberLines(ys, stamp)| == |ys|;
    }
  }

  /** One member whose origin swallows the end of one line and the beginning of another. */
  function Swallowing(a: Member, b: Member, stamp: int -> string): Member {
    a.(officialOrigin := a.officialOrigin + "|" + stamp(a.capturedAt) + ("|" + a.contentSHA256) + "\n" + LineHead(b) + b.officialOrigin,
       capturedAt := b.capturedAt, contentSHA256 := b.contentSHA256)
  }

  /**
   With a line break in an origin the text no longer tells: any two members share their text with a
   single one that the member table takes as well.
   */
  lemma LineBreakHidesMember(a: Member, b: Member, stamp: int -> string)
    requires a.sourceID < b.sourceID && StorableMember(a) && StorableMember(b)
    ensures StorableMember(Swallowing(a, b, stamp)) && '\n' in Swallowing(a, b, stamp).officialOrigin
    ensures ManifestText([Swallowing(a, b, stamp)], stamp) == ManifestText([a, b], stamp)
    ensures !SameMembers([Swallowing(a, b, stamp)], [a, b])
  {
    SwallowedLine(a, b, stamp);
    PairText(a, b, stamp);
    SingleText(Swallowing(a, b, stamp), stamp);
    SwallowingIsStorable(a, b, stamp);
    assert b in [a, b] && b.sourceID != Swallowing(a, b, stamp).sourceID;
  }

  lemma PairText(a: Member, b: Member, stamp: int -> string)
    requires a.sourceID < b.sourceID
    ensures ManifestText([a, b], stamp) == MemberLine(a, stamp) + "\n" + MemberLine(b, stamp)
  {
    AscendingSorts([a, b]);
    var lines := MemberLines([a, b], stamp);
    assert |lines| == 2 && lines[0] == MemberLine(a, stamp) && lines[1..] == [MemberLine(b, stamp)];
    assert Join(lines[1..], '\n') == MemberLine(b, stamp);
    assert Join(lines, '\n') == lines[0] + ['\n'] + Join(lines[1..], '\n');
    assert lines[0] + ['\n'] == lines[0] + "\n";
    assert BySource([a, b]) == [a, b];
  }

  lemma SingleText(m: Member, stamp: int -> string)
    ensures ManifestText([m], stamp) == MemberLine(m, stamp)
  {
    AscendingSorts([m]);
    assert MemberLines([m], stamp) == [MemberLine(m, stamp)];
  }

  lemma SwallowingIsStorable(a: Member, b: Member, stamp: int -> string)
    requires StorableMember(a) && StorableMember(b)
    ensures StorableMember(Swallowing(a, b, stamp)) && '\n' in Swallowing(a, b, stamp).officialOrigin
  {
    var o := Swallowing(a, b, stamp).officialOrigin;
    var i :| 0 <= i < |a.officialOrigin| && a.officialOrigin[i] != ' ';
    assert o[i] == a.officialOrigin[i];
    assert o[|a.officialOrigin + "|" + stamp(a.capturedAt) + ("|" + a.contentSHA256)|] == '\n';
  }

  lemma SwallowedLine(a: Member, b: Member, stamp: int -> string)
    ensures MemberLine(Swallowing(a, b, stamp), stamp) == MemberLine(a, stamp) + "\n" + MemberLine(b, stamp)
  {
    LineParts(a, stamp);
    LineParts(b, stamp);
    LineParts(Swallowing(a, b, stamp), stamp);
  }
}
