/**
 * The three regular expressions the CORS tools search server.py with, as
 * Python's `re.search` runs them: the leftmost start position at which the
 * pattern matches.
 *
 *   ALLOWED_ORIGINS\s*=\s*\[([^\]]+)\]       cors_diagnostic_tool.py (capture must be non-empty)
 *   ALLOWED_ORIGINS\s*=\s*\[(.*?)\]  DOTALL  fix_cors_configuration.py (capture may be empty)
 *   app\s*=\s*FastAPI\(.*?\)                 cors_diagnostic_tool.py (no DOTALL: `.` stops at a newline)
 *
 * Both list patterns capture everything between the `[` and the first `]`
 * after it: `[^\]]+` cannot run past a `]`, and the lazy `.*?` stops at the
 * first one.
 */
module Patterns {
  import opened Wrappers
  import opened Text

  const ListName := "ALLOWED_ORIGINS"
  const AppName := "app"
  const AppCall := "FastAPI("

  /** A half-open range `[start, end)` of positions in the searched text. */
  datatype Span = Span(start: nat, end: nat)

  /** The leftmost position in `[i, n]` at which `m` matches, with what it matched. */
  function SearchFrom<T>(n: nat, i: nat, m: nat -> Option<T>): (r: Option<(nat, T)>)
    requires i <= n
    ensures r.Some? ==> i <= r.value.0 <= n && m(r.value.0) == Some(r.value.1)
    ensures r.Some? ==> forall p :: i <= p < r.value.0 ==> m(p).None?
    ensures r.None? <==> forall p :: i <= p <= n ==> m(p).None?
    decreases n - i
  {
    match m(i)
    case Some(v) => Some((i, v))
    case None => if i == n then None else SearchFrom(n, i + 1, m)
  }

  /** Where `\s*` starting at `i` stops. */
  function SkipSpace(s: string, i: nat): (j: nat)
    requires i <= |s|
    ensures i <= j <= |s|
    ensures forall k :: i <= k < j ==> IsPySpace(s[k])
    ensures j == |s| || !IsPySpace(s[j])
    decreases |s| - i
  {
    if i < |s| && IsPySpace(s[i]) then SkipSpace(s, i + 1) else i
  }

  /** The first position at or after `i` holding `c`. */
  function FindFrom(s: string, c: char, i: nat): (r: Option<nat>)
    requires i <= |s|
    ensures r.Some? ==> i <= r.value < |s| && s[r.value] == c && c !in s[i..r.value]
    ensures r.None? ==> c !in s[i..]
    decreases |s| - i
  {
    if i == |s| then None
    else if s[i] == c then Some(i)
    else
      var r := FindFrom(s, c, i + 1);
      assert s[i..] == [s[i]] + s[i + 1..];
      assert r.Some? ==> s[i..r.value] == [s[i]] + s[i + 1..r.value];
      r
  }

  /** Only `\s` characters lie in `[i, j)`. */
  predicate SpacesOnly(s: string, i: nat, j: nat)
    requires i <= j <= |s|
  {
    forall k :: i <= k < j ==> IsPySpace(s[k])
  }

  /**
   * `name\s*=\s*` matches at `i`, with its `=` at `j`, and what follows the
   * pattern starts at `k`.
   */
  predicate AssignmentVia(s: string, name: string, i: nat, j: nat, k: nat) {
    && OccursAt(s, name, i) && i + |name| <= j < k <= |s| && s[j] == '='
    && SpacesOnly(s, i + |name|, j) && SpacesOnly(s, j + 1, k)
  }

  /** `\s*` stops exactly at the first non-space character. */
  lemma SkipSpaceTo(s: string, i: nat, j: nat)
    requires i <= j <= |s| && SpacesOnly(s, i, j) && (j == |s| || !IsPySpace(s[j]))
    ensures SkipSpace(s, i) == j
  {
  }

  /** Position of the `[` when `ALLOWED_ORIGINS\s*=\s*\[` matches at `i`. */
  function ListOpenAt(s: string, i: nat): (r: Option<nat>)
    ensures r.Some? ==> OccursAt(s, ListName, i)
    ensures r.Some? ==> i + |ListName| < r.value < |s| && s[r.value] == '['
  {
    if !OccursAt(s, ListName, i) then None
    else
      var j := SkipSpace(s, i + |ListName|);
      if j == |s| || s[j] != '=' then None
      else
        var k := SkipSpace(s, j + 1);
        if k == |s| || s[k] != '[' then None else Some(k)
  }

  /** What `ListOpenAt` finds is `ALLOWED_ORIGINS`, whitespace, '=', whitespace and the '['. */
  lemma ListOpenAtSound(s: string, i: nat)
    requires ListOpenAt(s, i).Some?
    ensures exists j :: AssignmentVia(s, ListName, i, j, ListOpenAt(s, i).value)
  {
    var j := SkipSpace(s, i + |ListName|);
    assert AssignmentVia(s, ListName, i, j, ListOpenAt(s, i).value);
  }

  /** Every `ALLOWED_ORIGINS\s*=\s*\[` at `i` is found, with its `[`. */
  lemma ListOpenAtComplete(s: string, i: nat, j: nat, k: nat)
    requires AssignmentVia(s, ListName, i, j, k) && k < |s| && s[k] == '['
    ensures ListOpenAt(s, i) == Some(k)
  {
    SkipSpaceTo(s, i + |ListName|, j);
    SkipSpaceTo(s, j + 1, k);
  }

  /**
   * The capture of a list pattern matching at `i`: from just after the `[` to
   * the first `]`. With `allowEmpty` false (`[^\]]+`) an empty capture is no
   * match at this position.
   */
  function ListMatchAt(s: string, i: nat, allowEmpty: bool): (r: Option<Span>)
    ensures r.Some? ==> ListOpenAt(s, i) == Some(r.value.start - 1)
    ensures r.Some? ==> OccursAt(s, ListName, i)
    ensures r.Some? ==> i + |ListName| < r.value.start <= r.value.end < |s|
    ensures r.Some? ==> s[r.value.start - 1] == '[' && s[r.value.end] == ']'
    ensures r.Some? ==> ']' !in s[r.value.start..r.value.end]
    ensures r.Some? && !allowEmpty ==> r.value.start < r.value.end
  {
    match ListOpenAt(s, i)
    case None => None
    case Some(k) =>
      match FindFrom(s, ']', k + 1)
      case None => None
      case Some(e) => if !allowEmpty && e == k + 1 then None else Some(Span(k + 1, e))
  }

  /** Every assignment followed by a `]` (after at least one character for `[^\]]+`) matches at `i`. */
  lemma ListMatchAtComplete(s: string, i: nat, j: nat, k: nat, e: nat, allowEmpty: bool)
    requires AssignmentVia(s, ListName, i, j, k) && k < e < |s| && s[k] == '['
    requires s[e] == ']' && ']' !in s[k + 1..e] && (allowEmpty || k + 1 < e)
    ensures ListMatchAt(s, i, allowEmpty) == Some(Span(k + 1, e))
  {
    ListOpenAtComplete(s, i, j, k);
    FindFromFirst(s, ']', k + 1, e);
  }

  /** `re.search` of a list pattern: the captured list text of the leftmost match. */
  function ListCapture(s: string, allowEmpty: bool): (r: Option<string>)
    ensures r.Some? ==> ']' !in r.value && (allowEmpty || r.value != "")
    ensures r.None? <==> forall p :: 0 <= p <= |s| ==> ListMatchAt(s, p, allowEmpty).None?
  {
    var found := ListSearch(s, allowEmpty);
    if found.None? then None
    else
      var sp := found.value.1;
      assert ListMatchAt(s, found.value.0, allowEmpty) == Some(sp);
      Some(s[sp.start..sp.end])
  }

  /** The leftmost position where a list pattern matches, with its capture span. */
  function ListSearch(s: string, allowEmpty: bool): (r: Option<(nat, Span)>)
    ensures r.Some? ==> r.value.0 <= |s| && ListMatchAt(s, r.value.0, allowEmpty) == Some(r.value.1)
    ensures r.Some? ==> forall q :: 0 <= q < r.value.0 ==> ListMatchAt(s, q, allowEmpty).None?
    ensures r.None? <==> forall p :: 0 <= p <= |s| ==> ListMatchAt(s, p, allowEmpty).None?
  {
    var m := p => ListMatchAt(s, p, allowEmpty);
    assert forall p :: m(p) == ListMatchAt(s, p, allowEmpty);
    SearchFrom(|s|, 0, m)
  }

  /** The capture is the text captured at the leftmost position where the pattern matches. */
  lemma ListCaptureLeftmost(s: string, allowEmpty: bool)
    requires ListCapture(s, allowEmpty).Some?
    ensures exists p, sp ::
      && 0 <= p <= |s| && ListMatchAt(s, p, allowEmpty) == Some(sp)
      && (forall q :: 0 <= q < p ==> ListMatchAt(s, q, allowEmpty).None?)
      && sp.start <= sp.end <= |s| && ListCapture(s, allowEmpty).value == s[sp.start..sp.end]
  {
    var found := ListSearch(s, allowEmpty).value;
    assert ListMatchAt(s, found.0, allowEmpty) == Some(found.1);
  }

  /** The assignment both CORS tools write back: `ALLOWED_ORIGINS = [<list>]`. */
  function ListStatement(list: string): string {
    ListName + " = [" + list + "]"
  }

  /** `FindFrom` stops at the first occurrence: any `c` at `e` with none in `[i, e)` is the answer. */
  lemma FindFromFirst(s: string, c: char, i: nat, e: nat)
    requires i <= e < |s| && s[e] == c && c !in s[i..e]
    ensures FindFrom(s, c, i) == Some(e)
  {
  }

  /** The opening of a written-back assignment: `ALLOWED_ORIGINS = [` at the start of the text. */
  lemma ListOpensStatement(list: string, rest: string)
    ensures ListOpenAt(ListStatement(list) + rest, 0) == Some(|ListName| + 3)
  {
    var s := ListStatement(list) + rest;
    var n := |ListName|;
    assert s == ListName + (" = [" + list + "]" + rest);
    assert s[..n] == ListName;
    assert OccursAt(s, ListName, 0);
    assert s[n] == ' ' && s[n + 1] == '=' && s[n + 2] == ' ' && s[n + 3] == '[';
    assert SkipSpace(s, n + 2) == n + 3;
    assert SkipSpace(s, n) == n + 1;
  }

  /** The capture of a written-back assignment at the start of the text is its list. */
  lemma ListMatchesStatement(list: string, rest: string, allowEmpty: bool)
    requires ']' !in list
    requires allowEmpty || list != ""
    ensures ListMatchAt(ListStatement(list) + rest, 0, allowEmpty) == Some(Span(|ListName| + 4, |ListName| + 4 + |list|))
    ensures (ListStatement(list) + rest)[|ListName| + 4..|ListName| + 4 + |list|] == list
  {
    var s := ListStatement(list) + rest;
    var n := |ListName|;
    ListOpensStatement(list, rest);
    assert s == (ListName + " = [") + list + ("]" + rest);
    assert s[n + 4..n + 4 + |list|] == list;
    assert s[n + 4 + |list|] == ']';
    FindFromFirst(s, ']', n + 4, n + 4 + |list|);
  }

  /** Text that starts with a written-back assignment is read back as exactly that list. */
  lemma ListStatementReadsBack(list: string, rest: string, allowEmpty: bool)
    requires ']' !in list
    requires allowEmpty || list != ""
    ensures ListCapture(ListStatement(list) + rest, allowEmpty) == Some(list)
  {
    ListMatchesStatement(list, rest, allowEmpty);
  }

  /**
   * `app\s*=\s*FastAPI\(.*?\)` matches at `i` and ends at `end`: `FastAPI(`
   * starts at `k`, and the lazy `.*?` (which does not cross a newline) runs to
   * the first `)` after it.
   */
  predicate AppCallVia(s: string, i: nat, j: nat, k: nat, end: nat) {
    && AssignmentVia(s, AppName, i, j, k) && OccursAt(s, AppCall, k)
    && k + |AppCall| < end <= |s| && s[end - 1] == ')'
    && ')' !in s[k + |AppCall|..end - 1] && '\n' !in s[k + |AppCall|..end - 1]
  }

  /** Where `FastAPI(` starts when `app\s*=\s*FastAPI\(` matches at `i`. */
  function AppCallAt(s: string, i: nat): (r: Option<nat>)
    ensures r.Some? ==> i + |AppName| < r.value && OccursAt(s, AppCall, r.value)
  {
    if !OccursAt(s, AppName, i) then None
    else
      var j := SkipSpace(s, i + |AppName|);
      if j == |s| || s[j] != '=' then None
      else
        var k := SkipSpace(s, j + 1);
        if OccursAt(s, AppCall, k) then Some(k) else None
  }

  /** End of the lazy `.*?\)` started at `from`: just past the first ')', if no newline comes before it. */
  function CallCloseFrom(s: string, from: nat): (r: Option<nat>)
    requires from <= |s|
    ensures r.Some? ==> from < r.value <= |s| && s[r.value - 1] == ')'
  {
    match FindFrom(s, ')', from)
    case None => None
    case Some(e) => if '\n' in s[from..e] then None else Some(e + 1)
  }

  /** End of the match when `app\s*=\s*FastAPI\(.*?\)` matches at `i`. */
  function AppInitEndAt(s: string, i: nat): (r: Option<nat>)
    ensures r.Some? ==> i < r.value <= |s| && s[r.value - 1] == ')'
  {
    match AppCallAt(s, i)
    case None => None
    case Some(k) => CallCloseFrom(s, k + |AppCall|)
  }

  /** What `AppInitEndAt` finds is a match of the whole application pattern. */
  lemma AppInitEndAtSound(s: string, i: nat)
    requires AppInitEndAt(s, i).Some?
    ensures exists j, k :: AppCallVia(s, i, j, k, AppInitEndAt(s, i).value)
  {
    var j := SkipSpace(s, i + |AppName|);
    var k := AppCallAt(s, i).value;
    var e := FindFrom(s, ')', k + |AppCall|).value;
    assert AssignmentVia(s, AppName, i, j, k);
    assert AppCallVia(s, i, j, k, e + 1);
  }

  /** Every match of the application pattern at `i` is found, with its end. */
  lemma AppInitEndAtComplete(s: string, i: nat, j: nat, k: nat, end: nat)
    requires AppCallVia(s, i, j, k, end)
    ensures AppInitEndAt(s, i) == Some(end)
  {
    AppCallAtComplete(s, i, j, k);
    CallCloseFromComplete(s, k + |AppCall|, end);
  }

  lemma AppCallAtComplete(s: string, i: nat, j: nat, k: nat)
    requires AssignmentVia(s, AppName, i, j, k) && OccursAt(s, AppCall, k)
    ensures AppCallAt(s, i) == Some(k)
  {
    SkipSpaceTo(s, i + |AppName|, j);
    AppCallNotSpace(s, k);
    SkipSpaceTo(s, j + 1, k);
  }

  lemma CallCloseFromComplete(s: string, from: nat, end: nat)
    requires from < end <= |s| && s[end - 1] == ')'
    requires ')' !in s[from..end - 1] && '\n' !in s[from..end - 1]
    ensures CallCloseFrom(s, from) == Some(end)
  {
    FindFromFirst(s, ')', from, end - 1);
  }

  lemma AppCallNotSpace(s: string, k: nat)
    requires OccursAt(s, AppCall, k)
    ensures !IsPySpace(s[k])
  {
    assert s[k..k + |AppCall|][0] == s[k];
  }

  /** The leftmost position where the application pattern matches, with the match's end. */
  function AppSearch(s: string): (r: Option<(nat, nat)>)
    ensures r.Some? ==> r.value.0 <= |s| && AppInitEndAt(s, r.value.0) == Some(r.value.1)
    ensures r.Some? ==> forall q :: 0 <= q < r.value.0 ==> AppInitEndAt(s, q).None?
    ensures r.None? <==> forall p :: 0 <= p <= |s| ==> AppInitEndAt(s, p).None?
  {
    var m := p => AppInitEndAt(s, p);
    assert forall p :: m(p) == AppInitEndAt(s, p);
    SearchFrom(|s|, 0, m)
  }

  /** The insertion point is the end of the match at the leftmost position where the application pattern matches. */
  lemma AppInitEndLeftmost(s: string)
    requires AppInitEnd(s).Some?
    ensures exists p ::
      && 0 <= p <= |s| && AppInitEndAt(s, p) == AppInitEnd(s)
      && forall q :: 0 <= q < p ==> AppInitEndAt(s, q).None?
  {
    var found := AppSearch(s).value;
    assert AppInitEndAt(s, found.0) == Some(found.1) == AppInitEnd(s);
  }

  /** `re.search(app_pattern, content).end()`: where the middleware block is inserted. */
  function AppInitEnd(s: string): (r: Option<nat>)
    ensures r.Some? ==> 0 < r.value <= |s| && s[r.value - 1] == ')'
    ensures r.None? <==> forall p :: 0 <= p <= |s| ==> AppInitEndAt(s, p).None?
  {
    var found := AppSearch(s);
    if found.None? then None
    else
      assert AppInitEndAt(s, found.value.0) == Some(found.value.1);
      Some(found.value.1)
  }
}
