/** Grep over the listed files: capped matches, each with a window of whole runes around it. */
module Search {
  import opened Wrappers
  import opened Utf8

  const MAX_CONTEXT_CHARS := 2000
  const MAX_SEARCH_MATCHES := 50

  /** One match of the pattern, as byte offsets. */
  datatype Span = Span(from: nat, to: nat)

  datatype SearchMatch = SearchMatch(path: string, before: seq<Byte>, text: seq<Byte>, after: seq<Byte>)

  /** A listed file; its content is missing when reading it fails. */
  datatype File = File(path: string, content: Option<seq<Byte>>)

  datatype SearchError = EmptyPattern | BadPattern | ListFailed

  /** The spans a compiled pattern finds in a text. */
  type Regex = seq<Byte> -> seq<Span>

  predicate InText(content: seq<Byte>, s: Span) {
    s.from <= s.to && Boundary(content, s.from) && Boundary(content, s.to)
  }

  /** What a regular expression engine promises of its spans: they begin and end where runes do, and
      come in order without overlap. */
  predicate Spans(content: seq<Byte>, spans: seq<Span>) {
    && (forall i :: 0 <= i < |spans| ==> InText(content, spans[i]))
    && (forall i, j :: 0 <= i < j < |spans| ==> spans[i].to <= spans[j].from)
  }

  ghost predicate Finds(re: Regex) {
    forall content :: Spans(content, re(content))
  }

  function Min(a: int, b: int): int { if a < b then a else b }

  function Max(a: int, b: int): int { if a > b then a else b }

  function Clamp(contextChars: int): nat {
    Min(Max(contextChars, 0), MAX_CONTEXT_CHARS)
  }

  // ---------------------------------------------------------------- one match

  /** The match and its window, cut out of the runes of the file. */
  function MatchAt(path: string, content: seq<Byte>, s: Span, contextChars: nat): SearchMatch
    requires InText(content, s)
  {
    CountsOrdered(content, s.from, s.to);
    var runes := Runes(content);
    var start, end := RuneCount(content[..s.from]), RuneCount(content[..s.to]);
    var beforeStart, afterEnd := Max(start - contextChars, 0), Min(end + contextChars, |runes|);
    SearchMatch(path, EncodeAll(runes[beforeStart..start]), EncodeAll(runes[start..end]),
                EncodeAll(runes[end..afterEnd]))
  }

  lemma EncodeCut(rs: seq<Rune>, a: nat, b: nat, c: nat)
    requires a <= b <= c <= |rs|
    ensures EncodeAll(rs[a..c]) == EncodeAll(rs[a..b]) + EncodeAll(rs[b..c])
  {
    assert rs[a..c] == rs[a..b] + rs[b..c];
    EncodeConcat(rs[a..b], rs[b..c]);
  }

  /** Where rune a of the text begins. */
  function Offset(rs: seq<Rune>, a: nat): nat
    requires a <= |rs|
  {
    |EncodeAll(rs[..a])|
  }

  lemma TakeAll(rs: seq<Rune>, a: nat)
    requires a <= |rs|
    ensures rs[0..a] == rs[..a] && rs[0..|rs|] == rs
  {}

  /** A cut of the runes is a slice of the bytes. */
  lemma EncodeSlice(s: seq<Byte>, rs: seq<Rune>, a: nat, b: nat)
    requires Valid(s) && rs == Runes(s) && a <= b <= |rs|
    ensures Offset(rs, a) <= Offset(rs, b) <= |s| && s[Offset(rs, a)..Offset(rs, b)] == EncodeAll(rs[a..b])
  {
    EncodedRunes(s);
    TakeAll(rs, a);
    TakeAll(rs, b);
    EncodeCut(rs, 0, a, b);
    EncodeCut(rs, 0, b, |rs|);
    MiddleSlice(EncodeAll(rs[..a]), EncodeAll(rs[a..b]), EncodeAll(rs[b..|rs|]));
  }

  lemma MiddleSlice(a: seq<Byte>, b: seq<Byte>, c: seq<Byte>)
    ensures (a + b + c)[|a|..|a + b|] == b
  {}

  lemma Adjacent(s: seq<Byte>, a: nat, b: nat, c: nat, d: nat)
    requires a <= b <= c <= d <= |s|
    ensures s[a..b] + s[b..c] + s[c..d] == s[a..d]
  {}

  lemma CutCount(rs: seq<Rune>, a: nat, b: nat)
    requires Scalars(rs) && a <= b <= |rs|
    ensures RuneCount(EncodeAll(rs[a..b])) == b - a
  {
    RunesOfEncoded(rs[a..b]);
  }

  lemma WindowSlices(s: seq<Byte>, rs: seq<Rune>, first: nat, start: nat, end: nat, last: nat, span: Span,
                     m: SearchMatch)
    requires Valid(s) && rs == Runes(s) && first <= start <= end <= last <= |rs|
    requires span.from == Offset(rs, start) && span.to == Offset(rs, end)
    requires m.before == EncodeAll(rs[first..start]) && m.text == EncodeAll(rs[start..end])
             && m.after == EncodeAll(rs[end..last])
    ensures IsWindow(s, span, m)
  {
    EncodeSlice(s, rs, first, start);
    EncodeSlice(s, rs, start, end);
    EncodeSlice(s, rs, end, last);
    Adjacent(s, Offset(rs, first), Offset(rs, start), Offset(rs, end), Offset(rs, last));
  }

  /** The match and its surroundings are one stretch of the text, around exactly the matched bytes. */
  predicate IsWindow(content: seq<Byte>, s: Span, m: SearchMatch) {
    && |m.before| <= s.from <= s.to && s.to + |m.after| <= |content|
    && m.text == content[s.from..s.to]
    && m.before + m.text + m.after == content[s.from - |m.before|..s.to + |m.after|]
  }

  lemma SpanOffset(content: seq<Byte>, k: nat)
    requires Valid(content) && Boundary(content, k)
    ensures k <= |content| && RuneCount(content[..k]) <= |Runes(content)|
    ensures Offset(Runes(content), RuneCount(content[..k])) == k
  {
    RunesUpTo(content, k);
  }

  lemma Cuts(path: string, content: seq<Byte>, s: Span, contextChars: nat, left: nat, end: nat)
    requires InText(content, s) && s.to <= |content| && left == RuneCount(content[..s.from])
             && end == RuneCount(content[..s.to])
    ensures left <= end <= RuneCount(content)
    ensures var rs, m := Runes(content), MatchAt(path, content, s, contextChars);
            && m.before == EncodeAll(rs[Max(left - contextChars, 0)..left]) && m.text == EncodeAll(rs[left..end])
            && m.after == EncodeAll(rs[end..Min(end + contextChars, |rs|)])
  {
    CountsOrdered(content, s.from, s.to);
  }

  /** In valid text the window is one stretch of the file, and each side has as many runes as asked
      for, or all there are. */
  lemma WindowIsSlice(path: string, content: seq<Byte>, s: Span, contextChars: nat, left: nat, end: nat)
    requires Valid(content) && InText(content, s)
    requires s.to <= |content| && left == RuneCount(content[..s.from]) && end == RuneCount(content[..s.to])
    ensures var m := MatchAt(path, content, s, contextChars);
            && IsWindow(content, s, m) && end <= RuneCount(content)
            && RuneCount(m.before) == Min(contextChars, left)
            && RuneCount(m.after) == Min(contextChars, RuneCount(content) - end)
  {
    SpanOffset(content, s.from);
    SpanOffset(content, s.to);
    Cuts(path, content, s, contextChars, left, end);
    var rs, m := Runes(content), MatchAt(path, content, s, contextChars);
    var first, last := Max(left - contextChars, 0), Min(end + contextChars, |rs|);
    WindowSlices(content, rs, first, left, end, last, s, m);
    RunesAreScalar(content);
    CutCount(rs, first, left);
    CutCount(rs, end, last);
  }

  // ---------------------------------------------------------------- all matches

  function AllIn(path: string, content: seq<Byte>, spans: seq<Span>, contextChars: nat): (ms: seq<SearchMatch>)
    requires forall i :: 0 <= i < |spans| ==> InText(content, spans[i])
    ensures |ms| == |spans|
  {
    seq(|spans|, i requires 0 <= i < |spans| => MatchAt(path, content, spans[i], contextChars))
  }

  function InFile(f: File, re: Regex, contextChars: nat): seq<SearchMatch>
    requires Finds(re)
  {
    match f.content
    case None => []
    case Some(content) => AllIn(f.path, content, re(content), contextChars)
  }

  /** Every match there is, file by file in the order listed and by offset inside each. */
  function All(files: seq<File>, re: Regex, contextChars: nat): seq<SearchMatch>
    requires Finds(re)
  {
    if |files| == 0 then []
    else All(files[..|files| - 1], re, contextChars) + InFile(files[|files| - 1], re, contextChars)
  }

  function First(ms: seq<SearchMatch>, n: int): seq<SearchMatch> {
    if n <= 0 then [] else if n < |ms| then ms[..n] else ms
  }

  /** What the search tool answers: the first fifty matches, flagged as truncated when there are fifty. */
  function Answer(files: seq<File>, re: Regex, contextChars: nat): (seq<SearchMatch>, bool)
    requires Finds(re)
  {
    var matches := First(All(files, re, contextChars), MAX_SEARCH_MATCHES);
    (matches, |matches| == MAX_SEARCH_MATCHES)
  }

  // ---------------------------------------------------------------- which matches, of which files

  /** Span number span of file number file. */
  datatype Place = Place(file: nat, span: nat)

  predicate Before(p: Place, q: Place) {
    p.file < q.file || (p.file == q.file && p.span < q.span)
  }

  predicate Hit(files: seq<File>, re: Regex, p: Place) {
    p.file < |files| && files[p.file].content.Some? && p.span < |re(files[p.file].content.value)|
  }

  /** Around the runes from left to end, as many on either side as asked for or all there are. */
  predicate CutAround(rs: seq<Rune>, left: nat, end: nat, contextChars: nat, m: SearchMatch) {
    && left <= end <= |rs| && Runes(m.text) == rs[left..end]
    && Runes(m.before) == rs[if left < contextChars then 0 else left - contextChars..left]
    && Runes(m.after) == rs[end..if end + contextChars > |rs| then |rs| else end + contextChars]
  }

  /** m reports this span of this file: the file's path, the matched runes and those around them; in valid
      text, one stretch of its bytes. */
  predicate Reported(path: string, content: seq<Byte>, s: Span, contextChars: nat, m: SearchMatch) {
    && m.path == path && InText(content, s) && s.to <= |content|
    && CutAround(Runes(content), |Runes(content[..s.from])|, |Runes(content[..s.to])|, contextChars, m)
    && (Valid(content) ==> IsWindow(content, s, m))
  }

  /** The matches report these places: in order, each once, and none is left out before fifty are full. */
  ghost predicate Reporting(files: seq<File>, re: Regex, contextChars: nat, ms: seq<SearchMatch>, places: seq<Place>) {
    && |places| == |ms| <= 50
    && (forall i, j :: 0 <= i < j < |places| ==> Before(places[i], places[j]))
    && (forall i :: 0 <= i < |places| ==>
          Hit(files, re, places[i]) && ReportedAt(files, re, contextChars, places[i], ms[i]))
    && (forall p :: Hit(files, re, p) && p !in places ==> |ms| == 50 && Before(places[49], p))
  }

  predicate ReportedAt(files: seq<File>, re: Regex, contextChars: nat, p: Place, m: SearchMatch)
    requires Hit(files, re, p)
  {
    var content := files[p.file].content.value;
    Reported(files[p.file].path, content, re(content)[p.span], contextChars, m)
  }

  ghost predicate Reports(files: seq<File>, re: Regex, contextChars: nat, ms: seq<SearchMatch>) {
    exists places :: Reporting(files, re, contextChars, ms, places)
  }

  lemma CutReported(rs: seq<Rune>, a: nat, b: nat, cut: seq<Byte>)
    requires Scalars(rs) && a <= b <= |rs| && cut == EncodeAll(rs[a..b])
    ensures Runes(cut) == rs[a..b]
  {
    RunesOfEncoded(rs[a..b]);
  }

  lemma WindowRunes(rs: seq<Rune>, left: nat, end: nat, contextChars: nat, m: SearchMatch)
    requires Scalars(rs) && left <= end <= |rs|
    requires m.before == EncodeAll(rs[Max(left - contextChars, 0)..left]) && m.text == EncodeAll(rs[left..end])
    requires m.after == EncodeAll(rs[end..Min(end + contextChars, |rs|)])
    ensures CutAround(rs, left, end, contextChars, m)
  {
    CutReported(rs, Max(left - contextChars, 0), left, m.before);
    CutReported(rs, left, end, m.text);
    CutReported(rs, end, Min(end + contextChars, |rs|), m.after);
  }

  lemma MatchPath(path: string, content: seq<Byte>, s: Span, contextChars: nat)
    requires InText(content, s)
    ensures MatchAt(path, content, s, contextChars).path == path
  {}

  lemma MatchCuts(path: string, content: seq<Byte>, s: Span, contextChars: nat, rs: seq<Rune>, left: nat, end: nat,
                  m: SearchMatch)
    requires InText(content, s) && s.to <= |content| && m == MatchAt(path, content, s, contextChars)
    requires rs == Runes(content) && left == |Runes(content[..s.from])| && end == |Runes(content[..s.to])|
    ensures left <= end <= |rs| && Scalars(rs)
    ensures m.before == EncodeAll(rs[Max(left - contextChars, 0)..left]) && m.text == EncodeAll(rs[left..end])
    ensures m.after == EncodeAll(rs[end..Min(end + contextChars, |rs|)])
    ensures Valid(content) ==> IsWindow(content, s, m)
  {
    Cuts(path, content, s, contextChars, left, end);
    RunesAreScalar(content);
    if Valid(content) { WindowIsSlice(path, content, s, contextChars, left, end); }
  }

  lemma MatchReported(path: string, content: seq<Byte>, s: Span, contextChars: nat, m: SearchMatch)
    requires InText(content, s) && m == MatchAt(path, content, s, contextChars)
    ensures Reported(path, content, s, contextChars, m)
  {
    CountsOrdered(content, s.from, s.to);
    var rs, left, end := Runes(content), |Runes(content[..s.from])|, |Runes(content[..s.to])|;
    MatchPath(path, content, s, contextChars);
    MatchCuts(path, content, s, contextChars, rs, left, end, m);
    WindowRunes(rs, left, end, contextChars, m);
  }

  function SpansOf(f: File, re: Regex): seq<Span> {
    match f.content case None => [] case Some(content) => re(content)
  }

  function PlacesIn(file: nat, n: nat): (ps: seq<Place>)
    ensures |ps| == n && forall i :: 0 <= i < n ==> ps[i] == Place(file, i)
  {
    seq(n, i requires 0 <= i => Place(file, i))
  }

  function Places(files: seq<File>, re: Regex): seq<Place> {
    if |files| == 0 then []
    else
      var n := |files| - 1;
      Places(files[..n], re) + PlacesIn(n, |SpansOf(files[n], re)|)
  }

  lemma LastFileReports(files: seq<File>, re: Regex, contextChars: nat, n: nat, i: nat)
    requires Finds(re) && |files| == n + 1 && i < |InFile(files[n], re, contextChars)|
    ensures Hit(files, re, Place(n, i))
    ensures ReportedAt(files, re, contextChars, Place(n, i), InFile(files[n], re, contextChars)[i])
  {
    var content := files[n].content.value;
    assert Spans(content, re(content));
    MatchReported(files[n].path, content, re(content)[i], contextChars, InFile(files[n], re, contextChars)[i]);
  }

  lemma EarlierFileReports(files: seq<File>, re: Regex, contextChars: nat, n: nat, p: Place, m: SearchMatch)
    requires |files| == n + 1 && Hit(files[..n], re, p) && ReportedAt(files[..n], re, contextChars, p, m)
    ensures Hit(files, re, p) && ReportedAt(files, re, contextChars, p, m)
  {}

  /** All matches report all places. */
  lemma {:induction false} AllReport(files: seq<File>, re: Regex, contextChars: nat, i: nat, p: Place, m: SearchMatch)
    requires Finds(re) && i < |All(files, re, contextChars)| == |Places(files, re)|
    requires p == Places(files, re)[i] && m == All(files, re, contextChars)[i]
    ensures Hit(files, re, p) && ReportedAt(files, re, contextChars, p, m)
    decreases |files|
  {
    var n := |files| - 1;
    SamePlaces(files[..n], re, contextChars);
    if i < |All(files[..n], re, contextChars)| {
      AllReport(files[..n], re, contextChars, i, p, m);
      EarlierFileReports(files, re, contextChars, n, p, m);
    } else {
      LastAt(files, re, contextChars, n, i, p, m);
    }
  }

  lemma LastAt(files: seq<File>, re: Regex, contextChars: nat, n: nat, i: nat, p: Place, m: SearchMatch)
    requires Finds(re) && |files| == n + 1
    requires |Places(files[..n], re)| == |All(files[..n], re, contextChars)| <= i
    requires i < |All(files, re, contextChars)| == |Places(files, re)|
    requires p == Places(files, re)[i] && m == All(files, re, contextChars)[i]
    ensures Hit(files, re, p) && ReportedAt(files, re, contextChars, p, m)
  {
    var j := i - |All(files[..n], re, contextChars)|;
    assert m == InFile(files[n], re, contextChars)[j] && p == Place(n, j);
    LastFileReports(files, re, contextChars, n, j);
  }

  lemma {:induction false} SamePlaces(files: seq<File>, re: Regex, contextChars: nat)
    requires Finds(re)
    ensures |Places(files, re)| == |All(files, re, contextChars)|
  {
    if |files| > 0 { SamePlaces(files[..|files| - 1], re, contextChars); }
  }

  lemma {:induction false} PlacesOrdered(files: seq<File>, re: Regex, i: nat, j: nat)
    requires i < j < |Places(files, re)|
    ensures Before(Places(files, re)[i], Places(files, re)[j])
    decreases |files|
  {
    var n := |files| - 1;
    var before := Places(files[..n], re);
    if j < |before| {
      PlacesOrdered(files[..n], re, i, j);
    } else if i < |before| {
      PlaceWithin(files[..n], re, i);
    }
  }

  lemma {:induction false} PlaceWithin(files: seq<File>, re: Regex, i: nat)
    requires i < |Places(files, re)|
    ensures Places(files, re)[i].file < |files|
  {
    var n := |files| - 1;
    if i < |Places(files[..n], re)| { PlaceWithin(files[..n], re, i); }
  }

  lemma {:induction false} EveryPlace(files: seq<File>, re: Regex, p: Place) returns (i: nat)
    requires Hit(files, re, p)
    ensures i < |Places(files, re)| && Places(files, re)[i] == p
  {
    var n := |files| - 1;
    if p.file < n {
      i := EveryPlace(files[..n], re, p);
    } else {
      i := |Places(files[..n], re)| + p.span;
    }
  }

  /** What the tool answers are the reports of the first fifty places. */
  lemma AnswerReports(files: seq<File>, re: Regex, contextChars: nat, ms: seq<SearchMatch>)
    requires Finds(re) && ms == First(All(files, re, contextChars), 50)
    ensures Reports(files, re, contextChars, ms)
  {
    var all := Places(files, re);
    SamePlaces(files, re, contextChars);
    var places := all[..|ms|];
    forall i, j | 0 <= i < j < |places| ensures Before(places[i], places[j]) { PlacesOrdered(files, re, i, j); }
    forall i | 0 <= i < |places|
      ensures Hit(files, re, places[i]) && ReportedAt(files, re, contextChars, places[i], ms[i])
    {
      AllReport(files, re, contextChars, i, places[i], ms[i]);
    }
    forall p | Hit(files, re, p) && p !in places ensures |ms| == 50 && Before(places[49], p) {
      LeftOut(files, re, places, p);
    }
    assert Reporting(files, re, contextChars, ms, places);
  }

  lemma LeftOut(files: seq<File>, re: Regex, places: seq<Place>, p: Place)
    requires Hit(files, re, p) && p !in places && places <= Places(files, re)
    requires |places| == if |Places(files, re)| > 50 then 50 else |Places(files, re)|
    ensures |places| == 50 && Before(places[49], p)
  {
    var i := EveryPlace(files, re, p);
    assert forall k :: 0 <= k < |places| ==> places[k] in places && places[k] == Places(files, re)[k];
    PlacesOrdered(files, re, 49, i);
  }

  // ---------------------------------------------------------------- the source's loops

  /** The body of the loop over one file's matches. */
  method CutOut(path: string, content: seq<Byte>, runes: seq<Rune>, loc: Span, contextChars: nat)
    returns (m: SearchMatch)
    requires InText(content, loc) && runes == Runes(content)
    ensures m == MatchAt(path, content, loc, contextChars) && Reported(path, content, loc, contextChars, m)
  {
    CountsOrdered(content, loc.from, loc.to);
    var startRune := RuneCount(content[..loc.from]);
    var endRune := RuneCount(content[..loc.to]);
    var beforeStart := startRune - contextChars;
    if beforeStart < 0 {
      beforeStart := 0;
    }
    var afterEnd := endRune + contextChars;
    if afterEnd > |runes| {
      afterEnd := |runes|;
    }
    m := SearchMatch(path, EncodeAll(runes[beforeStart..startRune]), EncodeAll(runes[startRune..endRune]),
                     EncodeAll(runes[endRune..afterEnd]));
    MatchReported(path, content, loc, contextChars, m);
  }

  method SearchInContent(path: string, content: seq<Byte>, locs: seq<Span>, contextChars: nat, limit: int)
    returns (matches: seq<SearchMatch>, truncated: bool)
    requires forall i :: 0 <= i < |locs| ==> InText(content, locs[i])
    ensures matches == First(AllIn(path, content, locs, contextChars), limit)
    ensures truncated <==> limit <= 0 || |locs| > limit
  {
    matches := [];
    if limit <= 0 {
      return [], true;
    }
    if |locs| == 0 {
      return [], false;
    }
    ghost var all := AllIn(path, content, locs, contextChars);
    var runes := Runes(content);
    for i := 0 to |locs|
      invariant i <= limit && matches == all[..i]
    {
      if i >= limit {
        return matches, true;
      }
      var m := CutOut(path, content, runes, locs[i], contextChars);
      matches := matches + [m];
      TakeOne(all, i, m);
    }
    assert all[..|locs|] == all;
    return matches, false;
  }

  lemma TakeOne(all: seq<SearchMatch>, i: nat, m: SearchMatch)
    requires i < |all| && all[i] == m
    ensures all[..i + 1] == all[..i] + [m]
  {}

  /** A file that cannot be read is passed over. */
  method SearchFile(f: File, re: Regex, contextChars: nat, limit: int)
    returns (matches: seq<SearchMatch>, truncated: bool)
    requires Finds(re) && limit > 0
    ensures matches == First(InFile(f, re, contextChars), limit)
    ensures truncated <==> |InFile(f, re, contextChars)| > limit
  {
    match f.content
    case None => return [], false;
    case Some(content) =>
      matches, truncated := SearchInContent(f.path, content, re(content), contextChars, limit);
  }

  /** The loop over the files. */
  method SearchFiles(files: seq<File>, re: Regex, contextChars: nat)
    returns (matches: seq<SearchMatch>, truncated: bool)
    requires Finds(re)
    ensures matches == First(All(files, re, contextChars), MAX_SEARCH_MATCHES)
    ensures truncated <==> |matches| == MAX_SEARCH_MATCHES
  {
    matches := [];
    for i := 0 to |files|
      invariant |matches| < MAX_SEARCH_MATCHES && matches == All(files[..i], re, contextChars)
    {
      var fileMatches, fileTruncated := SearchFile(files[i], re, contextChars, MAX_SEARCH_MATCHES - |matches|);
      AllTake(files, i, re, contextChars);
      FirstSplit(matches, InFile(files[i], re, contextChars), MAX_SEARCH_MATCHES);
      matches := matches + fileMatches;
      if fileTruncated || |matches| >= MAX_SEARCH_MATCHES {
        AllPrefix(files, i + 1, re, contextChars);
        FirstPrefix(All(files[..i + 1], re, contextChars), All(files, re, contextChars), MAX_SEARCH_MATCHES);
        return matches, true;
      }
    }
    assert files[..|files|] == files;
    truncated := false;
  }

  lemma AllTake(files: seq<File>, i: nat, re: Regex, contextChars: nat)
    requires i < |files| && Finds(re)
    ensures All(files[..i + 1], re, contextChars) ==
            All(files[..i], re, contextChars) + InFile(files[i], re, contextChars)
  {
    assert files[..i + 1][..i] == files[..i];
  }

  lemma {:induction false} AllPrefix(files: seq<File>, i: nat, re: Regex, contextChars: nat)
    requires i <= |files| && Finds(re)
    ensures All(files[..i], re, contextChars) <= All(files, re, contextChars)
    decreases |files| - i
  {
    if i == |files| {
      assert files[..i] == files;
    } else {
      AllTake(files, i, re, contextChars);
      AllPrefix(files, i + 1, re, contextChars);
    }
  }

  /** Search answers with the first fifty of all matches, and says truncated exactly when it has fifty. */
  method Search(pattern: string, compiled: Option<Regex>, listed: Option<seq<File>>, contextChars: int)
    returns (r: Result<(seq<SearchMatch>, bool), SearchError>)
    requires compiled.Some? ==> Finds(compiled.value)
    ensures pattern == "" ==> r == Err(EmptyPattern)
    ensures pattern != "" && compiled.None? ==> r == Err(BadPattern)
    ensures pattern != "" && compiled.Some? && listed.None? ==> r == Err(ListFailed)
    ensures pattern != "" && compiled.Some? && listed.Some? ==>
              r == Ok(Answer(listed.value, compiled.value, Clamp(contextChars)))
    ensures r.Ok? ==>
              && Reports(listed.value, compiled.value,
                         if contextChars < 0 then 0 else if contextChars > 2000 then 2000 else contextChars, r.value.0)
              && (r.value.1 <==> |r.value.0| == 50)
  {
    if |pattern| == 0 {
      return Err(EmptyPattern);
    }
    var context := contextChars;
    if context < 0 {
      context := 0;
    }
    if context > MAX_CONTEXT_CHARS {
      context := MAX_CONTEXT_CHARS;
    }
    if compiled.None? {
      return Err(BadPattern);
    }
    if listed.None? {
      return Err(ListFailed);
    }
    var matches, truncated := SearchFiles(listed.value, compiled.value, context);
    AnswerReports(listed.value, compiled.value, context, matches);
    return Ok((matches, truncated));
  }

  /** Fewer than n matches, and the first few of one more file. */
  lemma FirstSplit(before: seq<SearchMatch>, here: seq<SearchMatch>, n: nat)
    requires |before| < n
    ensures before + First(here, n - |before|) == First(before + here, n)
    ensures |here| < n - |before| ==> First(before + here, n) == before + here
  {}

  lemma FirstPrefix(some: seq<SearchMatch>, all: seq<SearchMatch>, n: nat)
    requires some <= all && n <= |some|
    ensures First(some, n) == First(all, n)
  {
    assert some[..n] == all[..n];
  }

  // ---------------------------------------------------------------- what the flag says

  /** The flag is meant to say that matches were left out. It is set whenever they were, and wrongly set,
      on a complete answer, exactly when there are fifty matches in all. */
  lemma FlaggedThoughComplete(files: seq<File>, re: Regex, contextChars: nat)
    requires Finds(re)
    ensures var (matches, truncated) := Answer(files, re, contextChars);
            && (matches != All(files, re, contextChars) ==> truncated)
            && (truncated && matches == All(files, re, contextChars) <==>
                |All(files, re, contextChars)| == MAX_SEARCH_MATCHES)
  {}

  /** What a pattern of one ASCII character finds in s, base being where s begins in the text. */
  function Occurrences(s: seq<Byte>, c: Byte, base: nat): seq<Span> {
    if |s| == 0 then [] else
      var w := Decode(s).width;
      (if s[0] == c then [Span(base, base + w)] else []) + Occurrences(s[w..], c, base + w)
  }

  predicate Between(s: seq<Byte>, base: nat, span: Span) {
    && base <= span.from <= span.to
    && Boundary(s, span.from - base) && Boundary(s, span.to - base)
  }

  lemma BoundaryOn(s: seq<Byte>, base: nat, w: nat, span: Span)
    requires |s| > 0 && w == Decode(s).width && Between(s[w..], base + w, span)
    ensures Between(s, base, span)
  {}

  lemma {:induction false} OccurrencesOk(s: seq<Byte>, c: Byte, base: nat, i: nat)
    requires i < |Occurrences(s, c, base)|
    ensures var spans := Occurrences(s, c, base);
            Between(s, base, spans[i]) && (i > 0 ==> spans[i - 1].to <= spans[i].from)
    decreases |s|
  {
    var w := Decode(s).width;
    var rest := Occurrences(s[w..], c, base + w);
    if s[0] != c {
      assert Occurrences(s, c, base) == rest;
      OccurrencesOk(s[w..], c, base + w, i);
      BoundaryOn(s, base, w, rest[i]);
    } else if i > 0 {
      OccurrencesOk(s[w..], c, base + w, i - 1);
      BoundaryOn(s, base, w, rest[i - 1]);
    }
  }

  lemma {:induction false} InOrder(spans: seq<Span>, i: nat, j: nat)
    requires i < j < |spans|
    requires forall k :: 0 <= k < |spans| ==>
               spans[k].from <= spans[k].to && (k > 0 ==> spans[k - 1].to <= spans[k].from)
    ensures spans[i].to <= spans[j].from
    decreases j
  {
    if i < j - 1 { InOrder(spans, i, j - 1); }
  }

  lemma OccurrencesAreSpans(s: seq<Byte>, c: Byte)
    ensures Spans(s, Occurrences(s, c, 0))
  {
    var spans := Occurrences(s, c, 0);
    forall k | 0 <= k < |spans|
      ensures Between(s, 0, spans[k]) && (k > 0 ==> spans[k - 1].to <= spans[k].from)
    {
      OccurrencesOk(s, c, 0, k);
    }
    forall i, j | 0 <= i < j < |spans| ensures spans[i].to <= spans[j].from { InOrder(spans, i, j); }
  }

  function Repeat(c: Byte, n: nat): seq<Byte> {
    if n == 0 then [] else [c] + Repeat(c, n - 1)
  }

  lemma {:induction false} RepeatFound(c: Byte, n: nat, base: nat)
    requires c < 0x80
    ensures |Occurrences(Repeat(c, n), c, base)| == n
  {
    if n > 0 {
      var s := Repeat(c, n);
      assert Decode(s).width == 1 && s[1..] == Repeat(c, n - 1);
      RepeatFound(c, n - 1, base + 1);
    }
  }

  /** The pattern a, in one file of fifty letters a: all fifty matches are returned, and flagged as
      truncated. */
  lemma FiftyFlagged() returns (files: seq<File>, re: Regex)
    ensures files == [File("a.txt", Some(Repeat(0x61, 50)))]
    ensures forall content :: re(content) == Occurrences(content, 0x61, 0)
    ensures Finds(re) && |All(files, re, 0)| == 50 && Answer(files, re, 0) == (All(files, re, 0), true)
  {
    files, re := [File("a.txt", Some(Repeat(0x61, 50)))], content => Occurrences(content, 0x61, 0);
    forall content ensures Spans(content, re(content)) { OccurrencesAreSpans(content, 0x61); }
    RepeatFound(0x61, 50, 0);
    OneFile(files, re, 0);
    FlaggedThoughComplete(files, re, 0);
  }

  lemma OneFile(files: seq<File>, re: Regex, contextChars: nat)
    requires Finds(re) && |files| == 1
    ensures All(files, re, contextChars) == InFile(files[0], re, contextChars)
  {
    assert files[..0] == [];
  }
}
