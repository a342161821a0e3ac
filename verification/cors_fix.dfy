/**
 * fix_cors_configuration.py: find the ALLOWED_ORIGINS list in server.py,
 * work out which of the required (quoted) origins its text lacks, and append
 * each missing one on its own comma-terminated line.
 *
 * The model starts from the content of server.py; reading it, the backup
 * copy, the `re.sub` that writes the new list into the whole file, and the
 * prompts are not modelled. A patched run is described by the new list text.
 */
module CorsFix {
  import opened Wrappers
  import opened Text
  import opened Patterns
  import Seqs

  /** The origins the script insists on, with their double quotes. */
  const Required: seq<string> := [
    "\"http://localhost:52914\"",
    "\"http://127.0.0.1:52914\"",
    "\"http://localhost:*\"",
    "\"http://127.0.0.1:*\""
  ]

  /** What precedes each appended origin: a newline and four spaces. */
  const Indent := "\n    "

  /** The three ways a run ends. `NoList` is the run that returns False. */
  datatype Outcome =
    | NoList
    | AlreadyComplete
    | Patched(added: seq<string>, newList: string)
  {
    predicate Succeeded() {
      !NoList?
    }
  }

  /** The required origins that do not occur (as substrings) in the current list text, in order. */
  function MissingOrigins(current: string, required: seq<string>): (missing: seq<string>)
    ensures |missing| <= |required|
    ensures forall i :: 0 <= i < |missing| ==> missing[i] in required && !Contains(current, missing[i])
    ensures forall i :: 0 <= i < |required| && !Contains(current, required[i]) ==> required[i] in missing
  {
    Seqs.Filter(required, o => !Contains(current, o))
  }

  /** The missing origins keep the order of the required ones: the survivors of a prefix come first. */
  lemma {:induction false} MissingOriginsKeepOrder(current: string, a: seq<string>, b: seq<string>)
    ensures MissingOrigins(current, a + b) == MissingOrigins(current, a) + MissingOrigins(current, b)
  {
    Seqs.FilterAppend(a, b, o => !Contains(current, o));
  }

  /** Each missing origin is listed once when the required origins are distinct, as the four required ones are. */
  lemma MissingOriginsOnce(current: string, required: seq<string>)
    requires Seqs.Distinct(required)
    ensures Seqs.Distinct(MissingOrigins(current, required))
  {
    Seqs.FilterDistinct(required, o => !Contains(current, o));
  }

  lemma RequiredDistinct()
    ensures Seqs.Distinct(Required)
  {
  }

  /** The current text, followed by a ',' unless it is empty or already ends with one. */
  function Separated(current: string): string {
    if current != "" && !EndsWith(current, ",") then current + "," else current
  }

  /** Reference shape of the appended part: one `Indent + origin + ","` per missing origin. */
  function Lines(missing: seq<string>): string {
    if |missing| == 0 then "" else Indent + missing[0] + "," + Lines(missing[1..])
  }

  predicate NoTrailingComma(o: string) {
    !EndsWith(o, ",")
  }

  /**
   * The loop at fix_cors_configuration.py:58-61, from iteration `i` on: append
   * `Indent + origin`, then a ',' unless this is the last origin and the text
   * already ends with one.
   */
  function AppendFrom(s: string, missing: seq<string>, i: nat): (r: string)
    requires i <= |missing|
    ensures |s| <= |r| && r[..|s|] == s
    ensures forall j :: i <= j < |missing| ==> Contains(r, Indent + missing[j])
    ensures i < |missing| ==> EndsWith(r, ",")
    decreases |missing| - i
  {
    if i == |missing| then
      assert missing[i..] == [];
      s
    else
      var s1 := s + Indent + missing[i];
      var s2 := if i < |missing| - 1 || !EndsWith(s1, ",") then s1 + "," else s1;
      var r := AppendFrom(s2, missing, i + 1);
      AppendedKept(s, Indent + missing[i], s2, r);
      assert EndsWith(r, ",") by {
        if i + 1 == |missing| {
          assert r == s2;
        }
      }
      r
  }

  /** Text that `r` extends, and that itself extends `s + x`, keeps `s` in front and `x` inside. */
  lemma AppendedKept(s: string, x: string, s2: string, r: string)
    requires s2 == s + x || s2 == s + x + ","
    requires |s2| <= |r| && r[..|s2|] == s2
    ensures r[..|s|] == s && Contains(r, x)
  {
    assert r[..|s| + |x|] == s2[..|s| + |x|] == s + x;
    assert r[..|s|] == (s + x)[..|s|];
    assert r[|s|..|s| + |x|] == (s + x)[|s|..];
    assert OccursAt(r, x, |s|);
  }

  /** When no origin ends in ',', every origin gets exactly one ',' of its own. */
  lemma {:induction false} AppendFromLines(s: string, missing: seq<string>, i: nat)
    requires i <= |missing|
    requires forall j :: i <= j < |missing| ==> NoTrailingComma(missing[j])
    ensures AppendFrom(s, missing, i) == s + Lines(missing[i..])
    decreases |missing| - i
  {
    if i == |missing| {
      assert missing[i..] == [];
    } else {
      var s1 := s + Indent + missing[i];
      assert !EndsWith(s1, ",") by {
        assert s1[|s1| - 1] == if missing[i] == [] then ' ' else missing[i][|missing[i]| - 1];
      }
      AppendFromLines(s1 + ",", missing, i + 1);
      var rest := Lines(missing[i + 1..]);
      assert missing[i..][1..] == missing[i + 1..];
      assert Lines(missing[i..]) == Indent + missing[i] + "," + rest;
      Regroup(s, Indent, missing[i], ",", rest);
    }
  }

  /** The new list text the script writes, built as fix_cors_configuration.py:54-61 builds it. */
  function NewList(current: string, missing: seq<string>): (r: string)
    ensures |current| <= |r| && r[..|current|] == current
    ensures missing != [] ==> |current| < |r| && EndsWith(r, ",")
    ensures missing != [] ==> (r[|current|] == ',' <==> current != "" && !EndsWith(current, ","))
    ensures forall j :: 0 <= j < |missing| ==> Contains(r, Indent + missing[j])
  {
    var base := Separated(current);
    var r := AppendFrom(base, missing, 0);
    assert r[..|current|] == base[..|current|];
    if missing == [] then r
    else
      var s1 := base + Indent + missing[0];
      assert r == AppendFrom(if 0 < |missing| - 1 || !EndsWith(s1, ",") then s1 + "," else s1, missing, 1);
      assert r[|base|] == '\n';
      r
  }

  /**
   * For origins that do not end in ',' (the required ones), the new list is
   * the separated current text followed by one `Indent + origin + ","` line
   * per missing origin.
   */
  lemma NewListLines(current: string, missing: seq<string>)
    requires forall j :: 0 <= j < |missing| ==> NoTrailingComma(missing[j])
    ensures NewList(current, missing) == Separated(current) + Lines(missing)
  {
    AppendFromLines(Separated(current), missing, 0);
    assert missing[0..] == missing;
  }

  /** The captured list text with surrounding whitespace stripped, when the list is found. */
  function CurrentList(content: string): (r: Option<string>)
    ensures r.Some? <==> ListCapture(content, true).Some?
    ensures r.Some? ==> r.value == Strip(ListCapture(content, true).value, IsPySpace)
    ensures r.Some? ==> ']' !in r.value
  {
    match ListCapture(content, true)
    case None => None
    case Some(raw) =>
      StripSubset(raw, IsPySpace, ']');
      Some(Strip(raw, IsPySpace))
  }

  /** One run of the script on the content of server.py. */
  function RunFix(content: string): (o: Outcome)
    ensures o.NoList? <==> ListCapture(content, true).None?
    ensures o.AlreadyComplete? ==> AllPresent(CurrentList(content).value)
    ensures o.Patched? ==> o.added != [] && !AllPresent(CurrentList(content).value)
    ensures o.Patched? ==> forall i :: 0 <= i < |o.added| ==> o.added[i] in Required && !Contains(CurrentList(content).value, o.added[i])
    ensures o.Patched? ==> o.added == MissingOrigins(CurrentList(content).value, Required)
    ensures o.Patched? ==> o.newList == NewList(CurrentList(content).value, o.added)
    ensures o.AlreadyComplete? <==> CurrentList(content).Some? && MissingOrigins(CurrentList(content).value, Required) == []
  {
    match CurrentList(content)
    case None => NoList
    case Some(current) =>
      var missing := MissingOrigins(current, Required);
      MissingIffAbsent(current);
      if missing == [] then AlreadyComplete else Patched(missing, NewList(current, missing))
  }

  /** Nothing is missing exactly when every required origin is present. */
  lemma MissingIffAbsent(current: string)
    ensures MissingOrigins(current, Required) == [] <==> AllPresent(current)
  {
    var missing := MissingOrigins(current, Required);
    if missing != [] {
      assert missing[0] in Required;
    }
  }

  /** Every required origin occurs in the list text. */
  predicate AllPresent(list: string) {
    forall i :: 0 <= i < |Required| ==> Contains(list, Required[i])
  }

  lemma RequiredShape()
    ensures forall i :: 0 <= i < |Required| ==>
      && Required[i] != []
      && Required[i][0] == '"' && Required[i][|Required[i]| - 1] == '"'
      && ']' !in Required[i] && NoTrailingComma(Required[i])
  {
  }

  /** An origin already in the list, or appended by the patch, is in the patched list after stripping. */
  lemma PatchKeepsOrigin(current: string, missing: seq<string>, o: string)
    requires o != [] && !IsPySpace(o[0]) && !IsPySpace(o[|o| - 1])
    requires Contains(current, o) || o in missing
    ensures Contains(Strip(NewList(current, missing), IsPySpace), o)
  {
    var newList := NewList(current, missing);
    if Contains(current, o) {
      assert newList == current + newList[|current|..];
      ContainsLeft(current, newList[|current|..], o);
    } else {
      var j :| 0 <= j < |missing| && missing[j] == o;
      ContainsSuffix(newList, Indent, o);
    }
    ContainsStrip(newList, o, IsPySpace);
  }

  /** The patched list text holds every required origin, even after stripping whitespace. */
  lemma PatchCoversRequired(current: string)
    ensures AllPresent(Strip(NewList(current, MissingOrigins(current, Required)), IsPySpace))
  {
    var missing := MissingOrigins(current, Required);
    RequiredShape();
    forall i | 0 <= i < |Required|
      ensures Contains(Strip(NewList(current, missing), IsPySpace), Required[i])
    {
      PatchKeepsOrigin(current, missing, Required[i]);
    }
  }

  /** The patched list text holds no ']', so the list pattern reads all of it back. */
  lemma PatchHasNoBracket(current: string)
    requires ']' !in current
    ensures ']' !in NewList(current, MissingOrigins(current, Required))
  {
    var missing := MissingOrigins(current, Required);
    RequiredShape();
    assert forall j :: 0 <= j < |missing| ==> NoTrailingComma(missing[j]) && ']' !in missing[j];
    NewListLines(current, missing);
    LinesWithout(missing, ']');
  }

  /**
   * Running the script a second time on the list it wrote finds every
   * required origin present: the patch is idempotent.
   */
  lemma RerunFindsNothingMissing(content: string, rest: string)
    requires RunFix(content).Patched?
    ensures RunFix(ListStatement(RunFix(content).newList) + rest) == AlreadyComplete
  {
    var current := CurrentList(content).value;
    var newList := RunFix(content).newList;
    PatchHasNoBracket(current);
    ListStatementReadsBack(newList, rest, true);
    PatchCoversRequired(current);
    var current2 := Strip(newList, IsPySpace);
    assert CurrentList(ListStatement(newList) + rest) == Some(current2);
    Seqs.FilterNone(Required, o => !Contains(current2, o));
    assert MissingOrigins(current2, Required) == [];
  }

  /** None of the appended lines introduces a character the origins lack (other than the indent and ','). */
  lemma {:induction false} LinesWithout(missing: seq<string>, c: char)
    requires c != ',' && c !in Indent
    requires forall i :: 0 <= i < |missing| ==> c !in missing[i]
    ensures c !in Lines(missing)
  {
    if |missing| > 0 {
      LinesWithout(missing[1..], c);
    }
  }

  lemma Regroup(a: string, b: string, c: string, d: string, e: string)
    ensures a + b + c + d + e == a + (b + c + d + e)
  {
  }

  /** A string containing `a + t` contains `t`. */
  lemma ContainsSuffix(s: string, a: string, t: string)
    requires Contains(s, a + t)
    ensures Contains(s, t)
  {
    var k :| 0 <= k <= |s| - |a + t| && OccursAt(s, a + t, k);
    assert s[k + |a|..k + |a| + |t|] == (a + t)[|a|..];
    assert OccursAt(s, t, k + |a|);
  }
}
