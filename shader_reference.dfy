/**
 * A declarative description of what the splitter computes, independent of
 * its line-by-line state machine:
 *  - the stage in force at any point is the one named by the LAST marker
 *    before it that names a stage (markers naming neither do not count);
 *  - each stage's text is the content lines in force for that stage, in
 *    input order, each followed by one newline;
 *  - the parse fails exactly at the first content line for which no marker
 *    has named a stage yet.
 * `ParseMatchesReference` proves the splitter equal to this description.
 */
module ShaderReference {
  import opened Wrappers
  import opened Strings
  import opened Shader
  import opened ShaderLemmas

  /** The stage a single line names: only a marker names one, VERTEX taking precedence. */
  function Names(line: string): (t: ShaderType)
    ensures t != NoStage ==> IsMarker(line)
  {
    if !IsMarker(line) then NoStage
    else if Contains(line, VertexTag) then Vertex
    else if Contains(line, FragmentTag) then Fragment
    else NoStage
  }

  /** The stage named by the last line of `lines` that names one; `NoStage` if none does. */
  function LastNamed(lines: seq<string>): (t: ShaderType)
    decreases |lines|
  {
    if lines == [] then NoStage
    else if Names(lines[|lines| - 1]) != NoStage then Names(lines[|lines| - 1])
    else LastNamed(lines[..|lines| - 1])
  }

  /** The content lines of `lines` that are read while stage `t` is in force, in input order. */
  function Owned(lines: seq<string>, t: ShaderType): seq<string>
    decreases |lines|
  {
    if lines == [] then []
    else
      var prefix := lines[..|lines| - 1];
      var last := lines[|lines| - 1];
      Owned(prefix, t) + (if !IsMarker(last) && LastNamed(prefix) == t then [last] else [])
  }

  /** Line `k` is content read before any marker has named a stage: the write to `ss[-1]`. */
  predicate Unselected(lines: seq<string>, k: nat)
  {
    k < |lines| && !IsMarker(lines[k]) && LastNamed(lines[..k]) == NoStage
  }

  /** The first line at or after `from` that is `Unselected`. */
  function FirstUnselected(lines: seq<string>, from: nat): (r: Option<nat>)
    requires from <= |lines|
    ensures r.Some? ==> from <= r.value && Unselected(lines, r.value)
    ensures r.Some? ==> forall k: nat :: from <= k < r.value ==> !Unselected(lines, k)
    ensures r.None? ==> forall k: nat :: from <= k ==> !Unselected(lines, k)
    decreases |lines| - from
  {
    if from == |lines| then None
    else if Unselected(lines, from) then Some(from)
    else FirstUnselected(lines, from + 1)
  }

  /** The outcome the description above gives for `lines`. */
  function Reference(lines: seq<string>): Result<ShaderProgramSource, ParseError>
  {
    match FirstUnselected(lines, 0)
    case Some(k) => Err(UnselectedStage(k))
    case None => Ok(ShaderProgramSource(Join(Owned(lines, Vertex)), Join(Owned(lines, Fragment))))
  }

  /** Adding a line at the end of a body adds that line and one newline at the end of its text. */
  lemma {:induction false} JoinSnoc(body: seq<string>, line: string)
    ensures Join(body + [line]) == Join(body) + line + "\n"
    decreases |body|
  {
    if body == [] {
      assert [] + [line] == [line];
    } else {
      assert (body + [line])[0] == body[0];
      assert (body + [line])[1..] == body[1..] + [line];
      JoinSnoc(body[1..], line);
    }
  }

  /** Lines before the last one are `Unselected` in `lines` exactly when they are in `lines` without its last line. */
  lemma UnselectedInPrefix(lines: seq<string>, k: nat)
    requires |lines| > 0 && k < |lines| - 1
    ensures Unselected(lines, k) <==> Unselected(lines[..|lines| - 1], k)
  {
    assert lines[..|lines| - 1][..k] == lines[..k];
  }

  /** The state after a successful prefix, or the error of a failed one, as the description gives it. */
  lemma {:induction false} Agree(lines: seq<string>)
    ensures Parse(lines).Ok? ==>
      var s := Parse(lines).value;
      s.stage == LastNamed(lines) &&
      s.vertex == Join(Owned(lines, Vertex)) &&
      s.fragment == Join(Owned(lines, Fragment)) &&
      forall k: nat :: !Unselected(lines, k)
    ensures Parse(lines).Err? ==>
      var k := Parse(lines).error.line;
      Unselected(lines, k) && forall j: nat :: j < k ==> !Unselected(lines, j)
    decreases |lines|
  {
    if lines != [] {
      var n := |lines|;
      var prefix, last := lines[..n - 1], lines[n - 1];
      assert lines == prefix + [last];
      Agree(prefix);
      RunConcat(Initial, prefix, [last], 0);
      assert lines[..n - 1] == prefix;
      forall k: nat | k < n - 1 ensures Unselected(lines, k) <==> Unselected(prefix, k) {
        UnselectedInPrefix(lines, k);
      }
      match Parse(prefix)
      case Err(e) =>
      case Ok(s) =>
        assert Run(s, [last], n - 1) == Step(s, last, n - 1);
        if !IsMarker(last) && s.stage != NoStage {
          if s.stage == Vertex {
            JoinSnoc(Owned(prefix, Vertex), last);
            assert Owned(prefix, Fragment) + [] == Owned(prefix, Fragment);
          } else {
            JoinSnoc(Owned(prefix, Fragment), last);
            assert Owned(prefix, Vertex) + [] == Owned(prefix, Vertex);
          }
        } else {
          assert Owned(prefix, Fragment) + [] == Owned(prefix, Fragment);
          assert Owned(prefix, Vertex) + [] == Owned(prefix, Vertex);
        }
    }
  }

  /** The splitter computes exactly the reference outcome, on every input. */
  lemma ParseMatchesReference(lines: seq<string>)
    ensures ParseShaderSpec(lines) == Reference(lines)
  {
    Agree(lines);
    var first := FirstUnselected(lines, 0);
    match Parse(lines)
    case Ok(s) =>
      assert first.None?;
    case Err(e) =>
      assert first.Some?;
      assert !(first.value < e.line) && !(e.line < first.value);
  }

  /** No marker line ever reaches a stage's text. */
  lemma {:induction false} OwnedHasNoMarkers(lines: seq<string>, t: ShaderType)
    ensures NoMarkers(Owned(lines, t))
    decreases |lines|
  {
    if lines != [] {
      var prefix, last := lines[..|lines| - 1], lines[|lines| - 1];
      OwnedHasNoMarkers(prefix, t);
      var tail := if !IsMarker(last) && LastNamed(prefix) == t then [last] else [];
      var owned := Owned(prefix, t) + tail;
      forall i | 0 <= i < |owned| ensures !IsMarker(owned[i]) {
        if i < |Owned(prefix, t)| {
          assert owned[i] == Owned(prefix, t)[i];
        } else {
          assert owned[i] == tail[i - |Owned(prefix, t)|];
        }
      }
    }
  }

  /**
   * No stage is in force exactly while no line so far names one; so the
   * `Unselected` lines are the content lines before the first marker that
   * names a stage, and none come after it.
   */
  lemma {:induction false} NoStageUntilNamed(lines: seq<string>)
    ensures LastNamed(lines) == NoStage <==> forall i :: 0 <= i < |lines| ==> Names(lines[i]) == NoStage
    decreases |lines|
  {
    if lines != [] {
      var prefix := lines[..|lines| - 1];
      NoStageUntilNamed(prefix);
      forall i | 0 <= i < |prefix| ensures prefix[i] == lines[i] { }
    }
  }
}
