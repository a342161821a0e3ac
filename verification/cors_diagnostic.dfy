/**
 * cors_diagnostic_tool.py: the decisions the diagnostic makes about
 * server.py and about the probe responses it gets back.
 *
 * Reading server.py, the backup and the write-back, console colours, the log
 * file and the HTTP requests themselves are not modelled: the file content
 * and the responses are inputs.
 */
module CorsDiagnostic {
  import opened Wrappers
  import opened Text
  import opened Patterns
  import Seqs

  const FlutterOrigin := "http://localhost:52914"

  /** The origins the fix wants in ALLOWED_ORIGINS, in the order it appends them. */
  const OriginsToAdd: seq<string> := [
    FlutterOrigin,
    "http://127.0.0.1:52914",
    "http://localhost:*",
    "http://127.0.0.1:*"
  ]

  const MiddlewareName := "CORSMiddleware"

  // ---------------------------------------------------------------------------
  // Probe responses

  /** What came back from a probe: its status and its Access-Control-Allow-Origin header, if any. */
  datatype Response = Response(status: int, allowOrigin: Option<string>)

  /** The summary a probe returns; a request that raised is reported with status 0. */
  datatype ProbeResult = ProbeResult(statusCode: int, success: bool)

  predicate Is2xx(status: int) {
    200 <= status < 300
  }

  /** The GET probe: success is a 2xx status. `None` is a request that raised. */
  function GetProbe(response: Option<Response>): (r: ProbeResult)
    ensures r.success <==> response.Some? && 200 <= response.value.status < 300
    ensures response.None? ==> r.statusCode == 0
    ensures response.Some? ==> r.statusCode == response.value.status
  {
    match response
    case None => ProbeResult(0, false)
    case Some(resp) => ProbeResult(resp.status, Is2xx(resp.status))
  }

  /** The OPTIONS (preflight) probe: success also needs an Allow-Origin header to be present. */
  function OptionsProbe(response: Option<Response>): (r: ProbeResult)
    ensures r.success <==> response.Some? && 200 <= response.value.status < 300 && response.value.allowOrigin.Some?
    ensures response.None? ==> r.statusCode == 0
    ensures response.Some? ==> r.statusCode == response.value.status
  {
    match response
    case None => ProbeResult(0, false)
    case Some(resp) => ProbeResult(resp.status, Is2xx(resp.status) && resp.allowOrigin.Some?)
  }

  /** The verdict the OPTIONS probe prints, which tests the header for truth rather than presence. */
  predicate OptionsReportedOk(resp: Response) {
    Is2xx(resp.status) && resp.allowOrigin.Some? && resp.allowOrigin.value != ""
  }

  /**
   * The printed verdict and the returned `success` flag disagree exactly on a
   * 2xx response whose Allow-Origin header is present but empty.
   */
  lemma OptionsVerdictsDisagreeOnlyOnEmptyHeader(resp: Response)
    ensures OptionsProbe(Some(resp)).success != OptionsReportedOk(resp)
      <==> Is2xx(resp.status) && resp.allowOrigin == Some("")
  {
  }

  /** How the GET probe reads the Allow-Origin header when it sent an Origin. */
  datatype OriginVerdict = NoCorsHeaders | AllowsOrigin | AllowsOtherOrigin

  /**
   * The header check of the GET probe. No check is made (`None`) when no
   * Origin, or an empty one, was sent; an empty header counts as no header.
   */
  function CheckAllowOrigin(withOrigin: Option<string>, header: Option<string>): (v: Option<OriginVerdict>)
    ensures v.None? <==> withOrigin.None? || withOrigin == Some("")
    ensures v == Some(NoCorsHeaders) <==> v.Some? && (header.None? || header == Some(""))
    ensures v == Some(AllowsOrigin) <==> v.Some? && (header == withOrigin || header == Some("*"))
  {
    match withOrigin
    case None => None
    case Some(origin) =>
      if origin == "" then None
      else
        match header
        case None => Some(NoCorsHeaders)
        case Some(h) =>
          if h == "" then Some(NoCorsHeaders)
          else if h == origin || h == "*" then Some(AllowsOrigin)
          else Some(AllowsOtherOrigin)
  }

  /** The `content` field of a probe result: the body cut to 200 characters, with "..." when cut. */
  function Preview(body: string): (r: string)
    ensures |body| <= 200 ==> r == body
    ensures |body| > 200 ==> |r| == 203 && r[..200] == body[..200] && r[200..] == "..."
  {
    if |body| > 200 then body[..200] + "..." else body
  }

  // ---------------------------------------------------------------------------
  // Reading ALLOWED_ORIGINS

  predicate IsQuoteOrSpace(c: char) {
    c == ' ' || c == '"' || c == '\''
  }

  /** An entry that `strip(' "\'')` leaves unchanged. */
  predicate QuoteStripped(o: string) {
    o == [] || (!IsQuoteOrSpace(o[0]) && !IsQuoteOrSpace(o[|o| - 1]))
  }

  /** An entry that is empty or all whitespace once stripped with `str.strip()`. */
  predicate Blank(o: string) {
    Strip(o, IsPySpace) == ""
  }

  function StripEach(pieces: seq<string>): (r: seq<string>)
    ensures |r| == |pieces|
    ensures forall i :: 0 <= i < |r| ==> r[i] == Strip(pieces[i], IsQuoteOrSpace)
  {
    if |pieces| == 0 then [] else [Strip(pieces[0], IsQuoteOrSpace)] + StripEach(pieces[1..])
  }

  /** The captured list text split on ',' with spaces and quotes stripped from both ends of each piece. */
  function ParseOrigins(listText: string): (origins: seq<string>)
    ensures |origins| == |Split(listText, ',')| >= 1
    ensures forall i :: 0 <= i < |origins| ==> origins[i] == Strip(Split(listText, ',')[i], IsQuoteOrSpace)
    ensures forall i :: 0 <= i < |origins| ==> ',' !in origins[i] && QuoteStripped(origins[i])
  {
    var pieces := Split(listText, ',');
    StripEachWithout(pieces, ',');
    StripEach(pieces)
  }

  /** Stripping each piece introduces no character. */
  lemma StripEachWithout(pieces: seq<string>, c: char)
    requires forall i :: 0 <= i < |pieces| ==> c !in pieces[i]
    ensures forall i :: 0 <= i < |pieces| ==> c !in StripEach(pieces)[i] && QuoteStripped(StripEach(pieces)[i])
  {
    forall i | 0 <= i < |pieces|
      ensures c !in StripEach(pieces)[i] && QuoteStripped(StripEach(pieces)[i])
    {
      var r := Strip(pieces[i], IsQuoteOrSpace);
      StripSubset(pieces[i], IsQuoteOrSpace, c);
      assert r == [] || (!IsQuoteOrSpace(r[0]) && !IsQuoteOrSpace(r[|r| - 1]));
    }
  }

  /** An entry that lets the Flutter app in: it mentions the Flutter origin or a wildcard. */
  predicate AdmitsFlutter(o: string) {
    !Blank(o) && (Contains(o, FlutterOrigin) || '*' in o)
  }

  predicate FlutterAllowed(origins: seq<string>) {
    exists i | 0 <= i < |origins| :: AdmitsFlutter(origins[i])
  }

  /** What `analyze_server_py` reports about the content of server.py. */
  datatype Analysis = Analysis(hasMiddleware: bool, origins: seq<string>, flutterAllowed: bool, content: string)

  /** `analyze_server_py` once the file is read. */
  function Analyze(content: string): (a: Analysis)
    ensures a.content == content
    ensures a.hasMiddleware <==> Contains(content, MiddlewareName)
    ensures a.origins == [] <==> !a.hasMiddleware || ListCapture(content, false).None?
    ensures a.origins != [] ==> a.origins == ParseOrigins(ListCapture(content, false).value)
    ensures a.flutterAllowed <==> a.origins != [] && FlutterAllowed(a.origins)
  {
    if !Contains(content, MiddlewareName) then Analysis(false, [], false, content)
    else
      match ListCapture(content, false)
      case None => Analysis(true, [], false, content)
      case Some(listText) =>
        var origins := ParseOrigins(listText);
        Analysis(true, origins, FlutterAllowed(origins), content)
  }

  /** `analyze_server_py` on a server.py that is missing or could not be read (`None`). */
  function AnalyzeFile(file: Option<string>): (a: Option<Analysis>)
    ensures a.Some? <==> file.Some?
    ensures a.Some? ==> a.value == Analyze(file.value)
  {
    match file
    case None => None
    case Some(content) => Some(Analyze(content))
  }

  // ---------------------------------------------------------------------------
  // Merging and writing back ALLOWED_ORIGINS

  /** Some current entry contains `o` as a substring. */
  predicate Covered(current: seq<string>, o: string) {
    exists i | 0 <= i < |current| :: Contains(current[i], o)
  }

  /** The origins to add that no current entry already mentions, in their own order. */
  function MissingFrom(current: seq<string>, toAdd: seq<string>): (missing: seq<string>)
    ensures forall i :: 0 <= i < |missing| ==> missing[i] in toAdd && !Covered(current, missing[i])
    ensures forall i :: 0 <= i < |toAdd| && !Covered(current, toAdd[i]) ==> toAdd[i] in missing
  {
    Seqs.Filter(toAdd, o => !Covered(current, o))
  }

  /** Each origin to add is appended at most once: the appended origins are distinct. */
  lemma MergeAppendsOnce(current: seq<string>)
    ensures Seqs.Distinct(Merge(current, OriginsToAdd)[|current|..])
  {
    assert Seqs.Distinct(OriginsToAdd);
    Seqs.FilterDistinct(OriginsToAdd, o => !Covered(current, o));
  }

  /** The missing origins keep the relative order they have in the list to add. */
  lemma MissingFromKeepsOrder(current: seq<string>, a: seq<string>, b: seq<string>)
    ensures MissingFrom(current, a + b) == MissingFrom(current, a) + MissingFrom(current, b)
  {
    Seqs.FilterAppend(a, b, o => !Covered(current, o));
  }

  /** The current entries, unchanged and in order, followed by the missing origins. */
  function Merge(current: seq<string>, toAdd: seq<string>): (merged: seq<string>)
    ensures |current| <= |merged| && merged[..|current|] == current
    ensures forall i :: |current| <= i < |merged| ==> merged[i] in toAdd && !Covered(current, merged[i])
    ensures forall i :: 0 <= i < |toAdd| ==> Covered(merged, toAdd[i])
    ensures merged[|current|..] == MissingFrom(current, toAdd)
  {
    var merged := current + MissingFrom(current, toAdd);
    forall i | 0 <= i < |toAdd| ensures Covered(merged, toAdd[i]) {
      if Covered(current, toAdd[i]) {
        var j :| 0 <= j < |current| && Contains(current[j], toAdd[i]);
        assert merged[j] == current[j];
      } else {
        var missing := MissingFrom(current, toAdd);
        var j :| 0 <= j < |missing| && missing[j] == toAdd[i];
        assert merged[|current| + j] == toAdd[i];
        ContainsSelf(toAdd[i]);
      }
    }
    merged
  }

  /** Merging a merged list again appends nothing. */
  lemma MergeIdempotent(current: seq<string>, toAdd: seq<string>)
    ensures Merge(Merge(current, toAdd), toAdd) == Merge(current, toAdd)
  {
    MergeCovered(Merge(current, toAdd), toAdd);
  }

  /** Merging into entries that already cover every origin to add changes nothing. */
  lemma MergeCovered(current: seq<string>, toAdd: seq<string>)
    requires forall i :: 0 <= i < |toAdd| ==> Covered(current, toAdd[i])
    ensures Merge(current, toAdd) == current
  {
    Seqs.FilterNone(toAdd, o => !Covered(current, o));
  }

  function NonBlank(origins: seq<string>): (r: seq<string>)
    ensures forall i :: 0 <= i < |r| ==> r[i] in origins && !Blank(r[i])
    ensures forall i :: 0 <= i < |origins| && !Blank(origins[i]) ==> origins[i] in r
  {
    Seqs.Filter(origins, o => !Blank(o))
  }

  function Quote(o: string): string {
    "\"" + o + "\""
  }

  function QuoteEach(origins: seq<string>): (r: seq<string>)
    ensures |r| == |origins|
    ensures forall i :: 0 <= i < |r| ==> r[i] == Quote(origins[i])
  {
    if |origins| == 0 then [] else [Quote(origins[0])] + QuoteEach(origins[1..])
  }

  /** The new list text: non-blank entries, double-quoted, joined with ", ". */
  function FormatOrigins(origins: seq<string>): string {
    Join(QuoteEach(NonBlank(origins)), ", ")
  }

  /**
   * Reading back what was formatted gives the non-blank entries, provided
   * there is at least one and no entry holds a ',' or ends in a quote or a
   * space (true of every entry `ParseOrigins` produces).
   */
  lemma ParseFormatted(origins: seq<string>)
    requires NonBlank(origins) != []
    requires forall i :: 0 <= i < |origins| ==> ',' !in origins[i] && QuoteStripped(origins[i])
    ensures ParseOrigins(FormatOrigins(origins)) == NonBlank(origins)
  {
    var ys := NonBlank(origins);
    forall i | 0 <= i < |ys| ensures ys[i] != [] && ',' !in ys[i] && QuoteStripped(ys[i]) {
      assert ys[i] in origins;
    }
    ParseJoined("", ys);
    assert "" + FormatOrigins(origins) == FormatOrigins(origins);
  }

  lemma {:induction false} ParseJoined(pad: string, ys: seq<string>)
    requires pad == "" || pad == " "
    requires |ys| >= 1
    requires forall i :: 0 <= i < |ys| ==> ys[i] != [] && ',' !in ys[i] && QuoteStripped(ys[i])
    ensures StripEach(Split(pad + Join(QuoteEach(ys), ", "), ',')) == ys
    decreases |ys|
  {
    if |ys| == 1 {
      ParseJoinedOne(pad, ys);
    } else {
      ParseJoined(" ", ys[1..]);
      ParseJoinedCons(pad, ys);
    }
  }

  lemma ParseJoinedOne(pad: string, ys: seq<string>)
    requires pad == "" || pad == " "
    requires |ys| == 1 && ys[0] != [] && ',' !in ys[0] && QuoteStripped(ys[0])
    ensures StripEach(Split(pad + Join(QuoteEach(ys), ", "), ',')) == ys
  {
    var first := pad + Quote(ys[0]);
    StripQuoted(pad, ys[0]);
    assert pad + Join(QuoteEach(ys), ", ") == first;
    SplitWithoutSeparator(first, ',');
  }

  lemma ParseJoinedCons(pad: string, ys: seq<string>)
    requires pad == "" || pad == " "
    requires |ys| >= 2 && ys[0] != [] && ',' !in ys[0] && QuoteStripped(ys[0])
    requires StripEach(Split(" " + Join(QuoteEach(ys[1..]), ", "), ',')) == ys[1..]
    ensures StripEach(Split(pad + Join(QuoteEach(ys), ", "), ',')) == ys
  {
    var q := QuoteEach(ys);
    var first := pad + Quote(ys[0]);
    var rest := " " + Join(q[1..], ", ");
    assert QuoteEach(ys[1..]) == q[1..];
    StripQuoted(pad, ys[0]);
    JoinStep(pad, q);
    SplitCons(first, ',', rest);
    var tail := Split(rest, ',');
    assert Split(pad + Join(q, ", "), ',') == [first] + tail;
    StripEachCons(first, tail);
    assert [ys[0]] + ys[1..] == ys;
  }

  lemma StripEachCons(x: string, xs: seq<string>)
    ensures StripEach([x] + xs) == [Strip(x, IsQuoteOrSpace)] + StripEach(xs)
  {
    assert ([x] + xs)[1..] == xs;
  }

  /** One quoted entry, after an optional space, strips back to the entry. */
  lemma StripQuoted(pad: string, y: string)
    requires pad == "" || pad == " "
    requires y != [] && ',' !in y && QuoteStripped(y)
    ensures Strip(pad + Quote(y), IsQuoteOrSpace) == y
    ensures ',' !in pad + Quote(y)
  {
    var l := pad + "\"";
    assert pad + Quote(y) == l + y + "\"";
    assert forall k :: 0 <= k < |l| ==> IsQuoteOrSpace(l[k]);
    assert ',' !in l;
    StripPadded(l, y, "\"", IsQuoteOrSpace);
  }

  lemma JoinStep(pad: string, q: seq<string>)
    requires |q| >= 2
    ensures pad + Join(q, ", ") == (pad + q[0]) + [','] + (" " + Join(q[1..], ", "))
  {
  }

  lemma SplitWithoutSeparator(s: string, sep: char)
    requires sep !in s
    ensures Split(s, sep) == [s]
  {
  }

  /** The assignment the fix writes in place of the old one. */
  function OriginsStatement(origins: seq<string>): string {
    ListStatement(FormatOrigins(origins))
  }

  // ---------------------------------------------------------------------------
  // fix_cors_configuration

  /** The new CORSMiddleware block inserted after the FastAPI app is created. */
  const MiddlewareBlock := MiddlewareImport + MiddlewareName + MiddlewareSetup

  const MiddlewareImport := "\n# CORS configuration\nfrom fastapi.middleware.cors import "

  const MiddlewareSetup :=
    "\n\n"
    + "ALLOWED_ORIGINS = [\"http://localhost:52914\", \"http://127.0.0.1:52914\", \"http://localhost:*\", \"http://127.0.0.1:*\"]\n\n"
    + "app.add_middleware(\n    CORSMiddleware,\n    allow_origins=ALLOWED_ORIGINS,\n    allow_credentials=True,\n"
    + "    allow_methods=[\"*\"],\n    allow_headers=[\"*\"],\n)\n"

  /** How `fix_cors_configuration` ends; only the two rewrites return True. */
  datatype FixOutcome =
    | NoAnalysis
    | ListRewritten(origins: seq<string>, statement: string)
    | ListNotFound
    | MiddlewareInserted(newContent: string)
    | AppInitNotFound
  {
    predicate Succeeded() {
      ListRewritten? || MiddlewareInserted?
    }
  }

  /** `content` with the middleware block inserted at `pos`. */
  function InsertBlock(content: string, pos: nat): (r: string)
    requires pos <= |content|
    ensures |r| == |content| + |MiddlewareBlock|
    ensures r[..pos] == content[..pos] && r[pos..pos + |MiddlewareBlock|] == MiddlewareBlock
    ensures r[pos + |MiddlewareBlock|..] == content[pos..]
  {
    content[..pos] + MiddlewareBlock + content[pos..]
  }

  /**
   * `fix_cors_configuration` in cors_diagnostic_tool.py. With the middleware
   * present it rewrites the list when the non-empty list pattern finds one;
   * without it, it inserts the middleware block at the end of the leftmost
   * `app = FastAPI(...)` match.
   */
  function Fix(analysis: Option<Analysis>): (o: FixOutcome)
    ensures o == NoAnalysis <==> analysis.None?
    ensures o.ListRewritten? <==>
      analysis.Some? && analysis.value.hasMiddleware && ListCapture(analysis.value.content, false).Some?
    ensures o.ListRewritten? ==> o.origins == Merge(analysis.value.origins, OriginsToAdd)
    ensures o.ListRewritten? ==> o.statement == OriginsStatement(o.origins)
    ensures o == ListNotFound <==>
      analysis.Some? && analysis.value.hasMiddleware && ListCapture(analysis.value.content, false).None?
    ensures o.MiddlewareInserted? <==>
      analysis.Some? && !analysis.value.hasMiddleware && AppInitEnd(analysis.value.content).Some?
    ensures o.MiddlewareInserted? ==>
      o.newContent == InsertBlock(analysis.value.content, AppInitEnd(analysis.value.content).value)
    ensures o == AppInitNotFound <==>
      analysis.Some? && !analysis.value.hasMiddleware && AppInitEnd(analysis.value.content).None?
  {
    match analysis
    case None => NoAnalysis
    case Some(a) =>
      if a.hasMiddleware then
        var merged := Merge(a.origins, OriginsToAdd);
        if ListCapture(a.content, false).Some? then ListRewritten(merged, OriginsStatement(merged))
        else ListNotFound
      else
        match AppInitEnd(a.content)
        case None => AppInitNotFound
        case Some(pos) => MiddlewareInserted(InsertBlock(a.content, pos))
  }

  /** Content with the middleware block inserted anywhere mentions CORSMiddleware. */
  lemma InsertedBlockNamesMiddleware(content: string, pos: nat)
    requires pos <= |content|
    ensures Contains(InsertBlock(content, pos), MiddlewareName)
  {
    var before, after := content[..pos], content[pos..];
    ContainsMiddle(MiddlewareImport, MiddlewareName, MiddlewareSetup);
    ContainsRight(before, MiddlewareBlock, MiddlewareName);
    ContainsLeft(before + MiddlewareBlock, after, MiddlewareName);
  }

  /**
   * After the block is inserted, analysing the new content finds the
   * middleware: the tool no longer recommends adding it, and a second fix
   * does not insert it again.
   */
  lemma InsertionIsNotRepeated(analysis: Option<Analysis>)
    requires Fix(analysis).MiddlewareInserted?
    ensures Analyze(Fix(analysis).newContent).hasMiddleware
    ensures Recommend(Some(Analyze(Fix(analysis).newContent))) != AddMiddleware
    ensures !Fix(Some(Analyze(Fix(analysis).newContent))).MiddlewareInserted?
  {
    var content := analysis.value.content;
    InsertedBlockNamesMiddleware(content, AppInitEnd(content).value);
  }

  // ---------------------------------------------------------------------------
  // What main does with the analysis

  /** The fix is offered when server.py was read and either lacks the middleware or does not admit the Flutter origin. */
  predicate OffersFix(analysis: Option<Analysis>) {
    analysis.Some? && (!analysis.value.hasMiddleware || !analysis.value.flutterAllowed)
  }

  /** The first recommendation `generate_recommendations` prints. */
  datatype Recommendation = CheckServerFile | AddMiddleware | AddFlutterOrigins | LooksGood

  function Recommend(analysis: Option<Analysis>): (r: Recommendation)
    ensures r == CheckServerFile <==> analysis.None?
    ensures r == AddMiddleware <==> analysis.Some? && !analysis.value.hasMiddleware
  {
    match analysis
    case None => CheckServerFile
    case Some(a) =>
      if !a.hasMiddleware then AddMiddleware
      else if !a.flutterAllowed then AddFlutterOrigins
      else LooksGood
  }

  /** The tool offers a fix exactly when its recommendation asks for a change to server.py. */
  lemma OfferMatchesRecommendation(analysis: Option<Analysis>)
    ensures OffersFix(analysis) <==> Recommend(analysis) in {AddMiddleware, AddFlutterOrigins}
    ensures !OffersFix(analysis) && analysis.Some? ==> Recommend(analysis) == LooksGood
  {
  }

  // ---------------------------------------------------------------------------
  // Reading the rewritten list back

  /** A character absent from the captured list text is absent from every parsed entry. */
  lemma ParseOriginsWithout(listText: string, c: char)
    requires c !in listText
    ensures forall i :: 0 <= i < |ParseOrigins(listText)| ==> c !in ParseOrigins(listText)[i]
  {
    SplitWithout(listText, ',', c);
    StripEachWithout(Split(listText, ','), c);
  }

  /** An entry holding a text that starts with a non-space character is not blank. */
  lemma ContainsNotBlank(o: string, t: string)
    requires Contains(o, t) && t != [] && !IsPySpace(t[0])
    ensures !Blank(o)
  {
    var k :| 0 <= k <= |o| - |t| && OccursAt(o, t, k);
    OccursNotBlank(o, t, k);
  }

  lemma OccursNotBlank(o: string, t: string, k: int)
    requires OccursAt(o, t, k) && t != [] && !IsPySpace(t[0])
    ensures !Blank(o)
  {
    assert o[k..k + |t|][0] == o[k];
  }

  /** Dropping blank entries keeps every origin an entry covered. */
  lemma CoveredNonBlank(origins: seq<string>, t: string)
    requires Covered(origins, t) && t != [] && !IsPySpace(t[0])
    ensures Covered(NonBlank(origins), t)
  {
    var j :| 0 <= j < |origins| && Contains(origins[j], t);
    CoveredNonBlankAt(origins, t, j);
  }

  lemma CoveredNonBlankAt(origins: seq<string>, t: string, j: int)
    requires 0 <= j < |origins| && Contains(origins[j], t) && t != [] && !IsPySpace(t[0])
    ensures Covered(NonBlank(origins), t)
  {
    ContainsNotBlank(origins[j], t);
    assert origins[j] in NonBlank(origins);
  }

  predicate PlainEntry(o: string) {
    ',' !in o && ']' !in o && QuoteStripped(o)
  }

  lemma OriginsToAddShape()
    ensures forall i :: 0 <= i < |OriginsToAdd| ==>
      PlainEntry(OriginsToAdd[i]) && OriginsToAdd[i] != [] && OriginsToAdd[i][0] == 'h'
  {
  }

  /** Every entry of a merge of parsed entries is plain: no ',', no ']', nothing to strip. */
  lemma MergedEntriesPlain(current: seq<string>)
    requires forall i :: 0 <= i < |current| ==> PlainEntry(current[i])
    ensures forall i :: 0 <= i < |Merge(current, OriginsToAdd)| ==> PlainEntry(Merge(current, OriginsToAdd)[i])
  {
    var merged := Merge(current, OriginsToAdd);
    OriginsToAddShape();
    forall i | 0 <= i < |merged| ensures PlainEntry(merged[i]) {
      if i < |current| {
        assert merged[i] == merged[..|current|][i];
      } else {
        var k :| 0 <= k < |OriginsToAdd| && OriginsToAdd[k] == merged[i];
      }
    }
  }

  /** The formatted list holds no ']' and is not empty. */
  lemma FormattedShape(origins: seq<string>)
    requires NonBlank(origins) != []
    requires forall i :: 0 <= i < |origins| ==> PlainEntry(origins[i])
    ensures ']' !in FormatOrigins(origins) && FormatOrigins(origins) != ""
  {
    var ys := NonBlank(origins);
    var q := QuoteEach(ys);
    forall i | 0 <= i < |q| ensures ']' !in q[i] {
      assert ys[i] in origins;
    }
    JoinWithout(q, ", ", ']');
    assert |Join(q, ", ")| >= |q[0]| by {
      if |q| > 1 {
        assert Join(q, ", ") == q[0] + ", " + Join(q[1..], ", ");
      }
    }
  }

  /** The non-blank entries of a merge admit the Flutter origin and cover every origin to add. */
  lemma MergedNonBlankCovers(current: seq<string>)
    ensures var ys := NonBlank(Merge(current, OriginsToAdd));
      ys != [] && FlutterAllowed(ys) && forall i :: 0 <= i < |OriginsToAdd| ==> Covered(ys, OriginsToAdd[i])
  {
    var merged := Merge(current, OriginsToAdd);
    var ys := NonBlank(merged);
    OriginsToAddShape();
    forall i | 0 <= i < |OriginsToAdd| ensures Covered(ys, OriginsToAdd[i]) {
      CoveredNonBlank(merged, OriginsToAdd[i]);
    }
    assert Covered(ys, OriginsToAdd[0]);
    var k :| 0 <= k < |ys| && Contains(ys[k], FlutterOrigin);
    assert AdmitsFlutter(ys[k]);
  }

  /** The rewritten assignment, followed by text that still configures CORSMiddleware, reads back as the non-blank merged origins. */
  lemma MergedStatementReadsBack(current: seq<string>, rest: string)
    requires forall i :: 0 <= i < |current| ==> PlainEntry(current[i])
    requires Contains(rest, MiddlewareName)
    ensures Analyze(OriginsStatement(Merge(current, OriginsToAdd)) + rest).origins == NonBlank(Merge(current, OriginsToAdd))
  {
    MergedEntriesPlain(current);
    var merged := Merge(current, OriginsToAdd);
    MergedNonBlankCovers(current);
    FormattedShape(merged);
    var f := FormatOrigins(merged);
    ListStatementReadsBack(f, rest, false);
    ContainsRight(ListStatement(f), rest, MiddlewareName);
    forall i | 0 <= i < |merged| ensures ',' !in merged[i] && QuoteStripped(merged[i]) {
      assert PlainEntry(merged[i]);
    }
    ParseFormatted(merged);
  }

  /** The origins a rewrite starts from are plain entries of the list found in server.py. */
  lemma RewriteStartsPlain(content: string)
    requires Fix(Some(Analyze(content))).ListRewritten?
    ensures forall i :: 0 <= i < |Analyze(content).origins| ==> PlainEntry(Analyze(content).origins[i])
  {
    ParseOriginsWithout(ListCapture(content, false).value, ']');
  }

  /**
   * After the list is rewritten, the tool reading the new assignment back
   * (in a file that still configures CORSMiddleware) sees the non-blank
   * merged origins, finds the Flutter origin admitted and offers no further
   * fix; a second rewrite would write the same origins.
   */
  lemma RewriteSettlesAnalysis(current: seq<string>, rest: string)
    requires forall i :: 0 <= i < |current| ==> PlainEntry(current[i])
    requires Contains(rest, MiddlewareName)
    ensures var merged := Merge(current, OriginsToAdd);
      var again := Analyze(OriginsStatement(merged) + rest);
      && again.origins == NonBlank(merged)
      && again.flutterAllowed
      && !OffersFix(Some(again))
      && Merge(again.origins, OriginsToAdd) == again.origins
  {
    MergedStatementReadsBack(current, rest);
    MergedNonBlankCovers(current);
    MergeCovered(NonBlank(Merge(current, OriginsToAdd)), OriginsToAdd);
  }
}
