/** Route paths of server/router/router.go: normalisation, joining and the dotted-route pattern. */
module Routes {
  import opened Text

  const DOT := '.'
  const ROOT := "root"

  predicate IsDot(c: char) { c == DOT }

  // ---------------------------------------------------------------- normalisation

  /** The trimmed, non-empty parts of a list. */
  function Clean(parts: seq<string>): seq<string> {
    if parts == [] then []
    else (if TrimSpace(parts[0]) == "" then [] else [TrimSpace(parts[0])]) + Clean(parts[1..])
  }

  /** The segments of a path. */
  function Segments(route: string): seq<string> {
    Clean(Split(route, DOT))
  }

  function Render(segs: seq<string>): string {
    if segs == [] then ROOT else Join(segs, DOT)
  }

  /** Normalisation, said directly: the segments joined again, or "root" when there are none. */
  function Normal(route: string): string {
    Render(Segments(route))
  }

  lemma {:induction false} CleanAppend(a: seq<string>, b: seq<string>)
    ensures Clean(a + b) == Clean(a) + Clean(b)
  {
    if a == [] {
      assert a + b == b;
    } else {
      assert (a + b)[1..] == a[1..] + b;
      CleanAppend(a[1..], b);
    }
  }

  lemma SegmentsAppend(a: string, b: string)
    ensures Segments(a + [DOT] + b) == Segments(a) + Segments(b)
  {
    SplitAppend(a, b, DOT);
    CleanAppend(Split(a, DOT), Split(b, DOT));
  }

  /** The position of the first dot. */
  lemma {:induction false} FirstDot(s: string) returns (i: nat)
    requires DOT in s
    ensures i < |s| && s[i] == DOT && DOT !in s[..i] && s == s[..i] + [DOT] + s[i + 1..]
  {
    if s[0] == DOT {
      i := 0;
    } else {
      var j := FirstDot(s[1..]);
      i := j + 1;
      assert s[..i] == [s[0]] + s[1..][..j];
    }
  }

  lemma SegmentsNoDot(s: string)
    requires DOT !in s
    ensures Segments(s) == if TrimSpace(s) == "" then [] else [TrimSpace(s)]
  {
    SplitNone(s, DOT);
    assert Clean([s][1..]) == [];
  }

  lemma SegmentsCons(c: char, s: string)
    requires IsSpace(c)
    ensures Segments([c] + s) == Segments(s)
  {
    if DOT in s {
      var i := FirstDot(s);
      var a, b := s[..i], s[i + 1..];
      assert [c] + s == ([c] + a) + [DOT] + b;
      SegmentsAppend([c] + a, b);
      SegmentsAppend(a, b);
      SegmentsNoDot([c] + a);
      SegmentsNoDot(a);
      assert ([c] + a)[1..] == a;
    } else {
      SegmentsNoDot([c] + s);
      SegmentsNoDot(s);
      assert ([c] + s)[1..] == s;
    }
  }

  lemma {:induction false} SegmentsSnoc(s: string, c: char)
    requires IsSpace(c)
    ensures Segments(s + [c]) == Segments(s)
    decreases |s|
  {
    if DOT in s {
      var i := FirstDot(s);
      var a, b := s[..i], s[i + 1..];
      assert s + [c] == a + [DOT] + (b + [c]);
      SegmentsAppend(a, b + [c]);
      SegmentsAppend(a, b);
      SegmentsSnoc(b, c);
    } else {
      SegmentsNoDot(s + [c]);
      SegmentsNoDot(s);
      TrimSnoc(s, c, IsSpace);
    }
  }

  lemma SegmentsDots(s: string)
    ensures Segments([DOT] + s) == Segments(s) == Segments(s + [DOT])
  {
    assert [DOT] + s == "" + [DOT] + s && s + [DOT] == s + [DOT] + "";
    SegmentsAppend("", s);
    SegmentsAppend(s, "");
    SegmentsNoDot("");
  }

  /** Trimming spaces or dots at the ends of a path does not change its segments. */
  lemma {:induction false} SegmentsTrim(s: string, drop: char -> bool)
    requires forall c :: drop(c) ==> IsSpace(c) || c == DOT
    ensures Segments(Trim(s, drop)) == Segments(s)
    decreases |s|
  {
    if s != "" && drop(s[0]) {
      SegmentsTrim(s[1..], drop);
      assert s == [s[0]] + s[1..];
      if s[0] == DOT { SegmentsDots(s[1..]); } else { SegmentsCons(s[0], s[1..]); }
    } else if s != "" && drop(s[|s| - 1]) {
      var init, last := s[..|s| - 1], s[|s| - 1];
      SegmentsTrim(init, drop);
      assert s == init + [last];
      if last == DOT { SegmentsDots(init); } else { SegmentsSnoc(init, last); }
    }
  }

  lemma {:induction false} CleanPrefix(parts: seq<string>, n: nat)
    requires n < |parts|
    ensures Clean(parts[..n + 1]) ==
            Clean(parts[..n]) + if TrimSpace(parts[n]) == "" then [] else [TrimSpace(parts[n])]
  {
    assert parts[..n + 1] == parts[..n] + [parts[n]];
    CleanAppend(parts[..n], [parts[n]]);
    assert [parts[n]][1..] == [];
  }

  /** The loop of normalizeRoute computes the direct definition. */
  method NormalizeRoute(route: string) returns (r: string)
    ensures r == Normal(route)
  {
    SegmentsTrim(route, IsSpace);
    SegmentsTrim(TrimSpace(route), IsDot);
    var trimmed := Trim(TrimSpace(route), IsDot);
    if trimmed == "" {
      SegmentsNoDot(trimmed);
      return ROOT;
    }
    var parts := Split(trimmed, DOT);
    var clean: seq<string> := [];
    var i := 0;
    while i < |parts|
      invariant 0 <= i <= |parts|
      invariant clean == Clean(parts[..i])
    {
      CleanPrefix(parts, i);
      var part := TrimSpace(parts[i]);
      i := i + 1;
      if part == "" {
        continue;
      }
      clean := clean + [part];
    }
    assert parts[..|parts|] == parts;
    if |clean| == 0 {
      return ROOT;
    }
    return Join(clean, DOT);
  }

  // ---------------------------------------------------------------- segments as normal forms

  /** A segment as Clean produces it. */
  ghost predicate IsSegment(s: string) {
    s != "" && Trimmed(s) && DOT !in s
  }

  ghost predicate AreSegments(segs: seq<string>) {
    forall i :: 0 <= i < |segs| ==> IsSegment(segs[i])
  }

  lemma {:induction false} TrimKeepsOut(s: string)
    requires DOT !in s
    ensures DOT !in TrimSpace(s)
  {
    if s != "" && IsSpace(s[0]) {
      TrimKeepsOut(s[1..]);
    } else if s != "" && IsSpace(s[|s| - 1]) {
      TrimKeepsOut(s[..|s| - 1]);
    }
  }

  lemma {:induction false} CleanSegments(parts: seq<string>)
    requires forall p :: p in parts ==> DOT !in p
    ensures AreSegments(Clean(parts))
  {
    if parts != [] {
      CleanSegments(parts[1..]);
      TrimSpaceTrimmed(parts[0]);
      TrimKeepsOut(parts[0]);
    }
  }

  lemma SegmentsAreSegments(route: string)
    ensures AreSegments(Segments(route))
  {
    SplitParts(route, DOT);
    CleanSegments(Split(route, DOT));
  }

  lemma {:induction false} CleanIdentity(segs: seq<string>)
    requires AreSegments(segs)
    ensures Clean(segs) == segs
  {
    if segs != [] {
      TrimSpaceTrimmed(segs[0]);
      CleanIdentity(segs[1..]);
      assert [segs[0]] + segs[1..] == segs;
    }
  }

  /** Segments survive rendering. */
  lemma SegmentsOfRender(segs: seq<string>)
    requires AreSegments(segs) && segs != []
    ensures Segments(Render(segs)) == segs
  {
    SplitJoin(segs, DOT);
    CleanIdentity(segs);
  }

  lemma SegmentsOfRoot()
    ensures Segments(ROOT) == [ROOT] && Segments("") == []
  {
    SegmentsNoDot(ROOT);
    SegmentsNoDot("");
    TrimSpaceTrimmed(ROOT);
  }

  /** Normalisation is idempotent. */
  lemma NormalIdempotent(route: string)
    ensures Normal(Normal(route)) == Normal(route)
  {
    SegmentsAreSegments(route);
    SegmentsOfRoot();
    if Segments(route) != [] {
      SegmentsOfRender(Segments(route));
    }
  }

  /** Part i of a path is segment i with any space around it; an empty segment is a part of space only. */
  ghost predicate Spaced(parts: seq<string>, segs: seq<string>) {
    |parts| == |segs| && forall i :: 0 <= i < |parts| ==> Padded(parts[i], segs[i])
  }

  ghost predicate Padded(part: string, seg: string) {
    (seg == "" || IsSegment(seg)) && exists a, b :: part == a + seg + b && Spaces(a) && Spaces(b)
  }

  /** The segments that are not empty. */
  function NonEmpty(segs: seq<string>): seq<string> {
    if segs == [] then [] else (if segs[0] == "" then [] else [segs[0]]) + NonEmpty(segs[1..])
  }

  lemma PaddedPart(part: string, seg: string)
    requires Padded(part, seg)
    ensures TrimSpace(part) == seg && DOT !in part
  {
    var a, b :| part == a + seg + b && Spaces(a) && Spaces(b);
    TrimPadded(a, seg, b);
    assert !IsSpace(DOT);
  }

  lemma {:induction false} CleanSpaced(parts: seq<string>, segs: seq<string>)
    requires Spaced(parts, segs)
    ensures Clean(parts) == NonEmpty(segs)
  {
    if parts != [] {
      PaddedPart(parts[0], segs[0]);
      CleanSpaced(parts[1..], segs[1..]);
    }
  }

  /** The normal form of a path, from its parts between dots: the segments without the space around them and
      without the empty ones, joined by dots, or "root" when none is left. */
  lemma NormalOfParts(parts: seq<string>, segs: seq<string>)
    requires parts != [] && Spaced(parts, segs)
    ensures Normal(Join(parts, '.')) == if NonEmpty(segs) == [] then "root" else Join(NonEmpty(segs), '.')
  {
    forall p | p in parts ensures '.' !in p {
      var i :| 0 <= i < |parts| && parts[i] == p;
      PaddedPart(p, segs[i]);
    }
    SplitJoin(parts, '.');
    CleanSpaced(parts, segs);
  }

  // ---------------------------------------------------------------- joining

  /** What joinRoute returns, given the two normalised paths it computes. */
  function JoinRoute(prefix: string, route: string): string {
    var p, s := Normal(prefix), Normal(route);
    if p == ROOT then s else if s == ROOT then p else p + [DOT] + s
  }

  /** A path as an element of the monoid of segment lists, where "root" is the empty list. */
  function Canon(route: string): seq<string> {
    if Segments(route) == [ROOT] then [] else Segments(route)
  }

  ghost predicate IsCanon(segs: seq<string>) {
    AreSegments(segs) && segs != [ROOT]
  }

  lemma CanonIsCanon(route: string)
    ensures IsCanon(Canon(route)) && Normal(route) == Render(Canon(route))
    ensures Normal(route) == ROOT <==> Canon(route) == []
  {
    SegmentsAreSegments(route);
    if Segments(route) != [] {
      SegmentsOfRender(Segments(route));
      SegmentsOfRoot();
    }
  }

  lemma CanonOfRender(segs: seq<string>)
    requires IsCanon(segs)
    ensures Canon(Render(segs)) == segs
  {
    SegmentsOfRoot();
    if segs != [] {
      SegmentsOfRender(segs);
    }
  }

  /** Joining paths is concatenating their segment lists. */
  lemma JoinIsConcat(a: string, b: string)
    ensures IsCanon(Canon(a) + Canon(b))
    ensures JoinRoute(a, b) == Render(Canon(a) + Canon(b))
    ensures Canon(JoinRoute(a, b)) == Canon(a) + Canon(b)
  {
    CanonIsCanon(a);
    CanonIsCanon(b);
    var x, y := Canon(a), Canon(b);
    if x == [] {
      assert x + y == y;
    } else if y == [] {
      assert x + y == x;
    } else {
      JoinAppend(x, y, DOT);
      assert |x + y| >= 2;
    }
    CanonOfRender(x + y);
  }

  lemma JoinLeft(a: string, b: string, c: string)
    ensures JoinRoute(JoinRoute(a, b), c) == Render(Canon(a) + Canon(b) + Canon(c))
  {
    JoinIsConcat(JoinRoute(a, b), c);
    JoinIsConcat(a, b);
  }

  lemma JoinRight(a: string, b: string, c: string)
    ensures JoinRoute(a, JoinRoute(b, c)) == Render(Canon(a) + (Canon(b) + Canon(c)))
  {
    JoinIsConcat(a, JoinRoute(b, c));
    JoinIsConcat(b, c);
  }

  lemma ConcatAssoc(x: seq<string>, y: seq<string>, z: seq<string>)
    ensures x + y + z == x + (y + z)
  {
  }

  /** joinRoute is associative. */
  lemma JoinAssociative(a: string, b: string, c: string)
    ensures JoinRoute(JoinRoute(a, b), c) == JoinRoute(a, JoinRoute(b, c))
  {
    JoinLeft(a, b, c);
    JoinRight(a, b, c);
    ConcatAssoc(Canon(a), Canon(b), Canon(c));
  }

  /** "" and "root" are identities up to normalisation, and joins are normalised. */
  lemma JoinIdentity(a: string, b: string)
    ensures JoinRoute("", a) == JoinRoute("root", a) == Normal(a)
    ensures JoinRoute(a, "") == JoinRoute(a, "root") == Normal(a)
    ensures Normal(JoinRoute(a, b)) == JoinRoute(a, b)
  {
    SegmentsOfRoot();
    JoinIsConcat(a, b);
    CanonIsCanon(JoinRoute(a, b));
  }

  // ---------------------------------------------------------------- the dotted-route pattern

  predicate WordChar(c: char) {
    'A' <= c <= 'Z' || 'a' <= c <= 'z' || c == '_'
  }

  predicate Word(s: string) {
    s != "" && forall i :: 0 <= i < |s| ==> WordChar(s[i])
  }

  /** ^[A-Za-z_]+(\.[A-Za-z_]+)*$ : a word, then nothing or a dot and again a match. */
  predicate Pattern(s: string)
    decreases |s|
  {
    exists k :: 0 < k <= |s| && Word(s[..k]) && (k == |s| || (s[k] == DOT && Pattern(s[k + 1..])))
  }

  predicate IsDotRoute(route: string) {
    route == "" || Pattern(route)
  }

  ghost predicate Words(parts: seq<string>) {
    forall i :: 0 <= i < |parts| ==> Word(parts[i])
  }

  lemma FirstWordEnds(s: string, i: nat, k: nat)
    requires i < |s| && s[i] == DOT && DOT !in s[..i]
    requires k <= |s| && Word(s[..k]) && (k == |s| || s[k] == DOT)
    ensures k == i
  {
    assert forall j :: 0 <= j < k ==> s[..k][j] == s[j];
    assert forall j :: 0 <= j < i ==> s[..i][j] == s[j];
  }

  lemma WordsCons(a: string, rest: seq<string>)
    ensures Words([a] + rest) <==> Word(a) && Words(rest)
  {
    var all := [a] + rest;
    assert all[0] == a;
    assert forall i :: 0 <= i < |rest| ==> all[i + 1] == rest[i];
    assert forall i :: 0 < i < |all| ==> all[i] == rest[i - 1];
  }

  /** A path with a dot matches when its first part is a word and the rest matches. */
  lemma PatternAtDot(s: string, i: nat)
    requires i < |s| && s[i] == DOT && DOT !in s[..i]
    ensures Pattern(s) <==> Word(s[..i]) && Pattern(s[i + 1..])
  {
    if Pattern(s) {
      var k :| 0 < k <= |s| && Word(s[..k]) && (k == |s| || (s[k] == DOT && Pattern(s[k + 1..])));
      FirstWordEnds(s, i, k);
    }
  }

  /** The pattern holds exactly when every dot-separated part is a word. */
  lemma {:induction false} PatternIsWords(s: string)
    ensures Pattern(s) <==> Words(Split(s, DOT))
    decreases |s|
  {
    if DOT in s {
      var i := FirstDot(s);
      PatternAtDot(s, i);
      PatternIsWords(s[i + 1..]);
      SplitAppend(s[..i], s[i + 1..], DOT);
      SplitNone(s[..i], DOT);
      WordsCons(s[..i], Split(s[i + 1..], DOT));
    } else {
      SplitNone(s, DOT);
      assert s[..|s|] == s;
      WordsCons(s, []);
      assert [s] + [] == [s];
    }
  }

  /** Letters, underscores and dots, no dot at an end and no two in a row. */
  ghost predicate Dotted(s: string) {
    && s != "" && s[0] != '.' && s[|s| - 1] != '.'
    && (forall i :: 0 <= i < |s| ==> 'a' <= s[i] <= 'z' || 'A' <= s[i] <= 'Z' || s[i] == '_' || s[i] == '.')
    && (forall i :: 0 <= i < |s| - 1 ==> s[i] != '.' || s[i + 1] != '.')
  }

  lemma DottedAtDot(s: string, i: nat)
    requires i < |s| && s[i] == '.' && '.' !in s[..i]
    ensures Dotted(s) <==> Word(s[..i]) && Dotted(s[i + 1..])
  {
    var a, b := s[..i], s[i + 1..];
    assert forall j :: 0 <= j < i ==> a[j] == s[j];
    assert forall j :: 0 <= j < |b| ==> b[j] == s[i + 1 + j];
    if Word(a) && Dotted(b) {
      forall j | 0 <= j < |s| - 1 ensures s[j] != '.' || s[j + 1] != '.' {
        if j > i {
          assert s[j] == b[j - i - 1] && s[j + 1] == b[j - i];
        }
      }
      forall j | 0 <= j < |s|
        ensures 'a' <= s[j] <= 'z' || 'A' <= s[j] <= 'Z' || s[j] == '_' || s[j] == '.'
      {
        if j > i {
          assert s[j] == b[j - i - 1];
        }
      }
    }
  }

  lemma DottedNoDot(s: string)
    requires '.' !in s
    ensures Dotted(s) <==> Word(s)
  {
  }

  /** The strings the pattern accepts, character by character. */
  lemma {:induction false} PatternIff(s: string)
    ensures Pattern(s) <==> Dotted(s)
    decreases |s|
  {
    if DOT in s {
      var i := FirstDot(s);
      PatternAtDot(s, i);
      DottedAtDot(s, i);
      PatternIff(s[i + 1..]);
    } else {
      DottedNoDot(s);
      PatternIsWords(s);
      SplitNone(s, DOT);
    }
  }

  lemma WordIsSegment(s: string)
    requires Word(s)
    ensures IsSegment(s)
  {
    assert !WordChar(DOT);
  }

  /** Normalisation is the identity on every non-empty accepted route. */
  lemma NormalOnAccepted(route: string)
    requires Pattern(route)
    ensures Normal(route) == route
    ensures Words(Segments(route)) && Segments(route) == Split(route, DOT)
  {
    PatternIsWords(route);
    var parts := Split(route, DOT);
    forall i | 0 <= i < |parts| ensures IsSegment(parts[i]) { WordIsSegment(parts[i]); }
    CleanIdentity(parts);
    JoinSplit(route, DOT);
  }

  /** An accepted route has no space to trim. */
  lemma AcceptedTrimmed(route: string)
    requires Pattern(route)
    ensures TrimSpace(route) == route
  {
    var k :| 0 < k <= |route| && Word(route[..k]) && (k == |route| || (route[k] == DOT && Pattern(route[k + 1..])));
    assert WordChar(route[..k][0]) && route[..k][0] == route[0];
    LastIsWordChar(route);
    TrimSpaceTrimmed(route);
  }

  lemma {:induction false} LastIsWordChar(route: string)
    requires Pattern(route)
    ensures route != "" && WordChar(route[|route| - 1])
    decreases |route|
  {
    var k :| 0 < k <= |route| && Word(route[..k]) && (k == |route| || (route[k] == DOT && Pattern(route[k + 1..])));
    if k == |route| {
      assert route[..k] == route;
    } else {
      LastIsWordChar(route[k + 1..]);
      assert route[k + 1..][|route| - k - 2] == route[|route| - 1];
    }
  }

  /** A non-empty list of words renders to an accepted route. */
  lemma WordsRender(segs: seq<string>)
    requires Words(segs) && segs != []
    ensures Pattern(Render(segs))
  {
    forall i | 0 <= i < |segs| ensures IsSegment(segs[i]) { WordIsSegment(segs[i]); }
    SplitJoin(segs, DOT);
    PatternIsWords(Render(segs));
  }

  /** joinRoute maps accepted inputs to accepted, non-empty outputs. */
  lemma JoinAccepted(a: string, b: string)
    requires IsDotRoute(a) && IsDotRoute(b)
    ensures Pattern(JoinRoute(a, b))
  {
    JoinIsConcat(a, b);
    SegmentsOfRoot();
    if a != "" { NormalOnAccepted(a); }
    if b != "" { NormalOnAccepted(b); }
    var segs := Canon(a) + Canon(b);
    if segs == [] {
      assert Word(ROOT);
      WordsRender([ROOT]);
    } else {
      WordsRender(segs);
    }
  }
}
