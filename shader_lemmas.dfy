/**
 * Properties of the shader-source splitter: how marker and content lines
 * change the state, that sections accumulate rather than reset, and the
 * round trip from two section bodies through a two-section file.
 */
module ShaderLemmas {
  import opened Wrappers
  import opened Strings
  import opened Shader

  /** The text a section body contributes: every line followed by one newline, in order. */
  function Join(body: seq<string>): string
  {
    if body == [] then "" else body[0] + "\n" + Join(body[1..])
  }

  /** No line of `body` is a marker. */
  predicate NoMarkers(body: seq<string>)
  {
    forall i :: 0 <= i < |body| ==> !IsMarker(body[i])
  }

  /** The state `s` with `text` added to the buffer of its (selected) active stage. */
  function Extend(s: ParserState, text: string): ParserState
  {
    match s.stage
    case NoStage => s
    case Vertex => s.(vertex := s.vertex + text)
    case Fragment => s.(fragment := s.fragment + text)
  }

  /** Running over `a + b` is running over `a`, then over `b` from where `a` left off. */
  lemma {:induction false} RunConcat(s: ParserState, a: seq<string>, b: seq<string>, k: nat)
    ensures Run(s, a + b, k) ==
      match Run(s, a, k)
      case Err(e) => Err(e)
      case Ok(s') => Run(s', b, k + |a|)
    decreases |a|
  {
    if a == [] {
      assert a + b == b;
    } else {
      assert (a + b)[0] == a[0];
      assert (a + b)[1..] == a[1..] + b;
      match Step(s, a[0], k)
      case Err(e) =>
      case Ok(s') => RunConcat(s', a[1..], b, k + 1);
    }
  }

  /** Reading no lines at all (also the case of a file that fails to open) gives two empty sources. */
  lemma EmptyInput()
    ensures ParseShaderSpec([]) == Ok(ShaderProgramSource("", ""))
  {
  }

  /**
   * A marker line adds nothing to either buffer; it only changes the stage,
   * to VERTEX if it names `vertex`, else to FRAGMENT if it names `fragment`.
   */
  lemma {:induction false} MarkerLine(prefix: seq<string>, m: string)
    requires IsMarker(m)
    ensures Parse(prefix).Err? ==> Parse(prefix + [m]) == Parse(prefix)
    ensures Parse(prefix).Ok? ==>
      var s := Parse(prefix).value;
      Parse(prefix + [m]) == Ok(ParserState(Retarget(s.stage, m), s.vertex, s.fragment))
    ensures Parse(prefix).Ok? && Contains(m, VertexTag) ==> Parse(prefix + [m]).value.stage == Vertex
    ensures Parse(prefix).Ok? && !Contains(m, VertexTag) && Contains(m, FragmentTag) ==>
      Parse(prefix + [m]).value.stage == Fragment
  {
    RunConcat(Initial, prefix, [m], 0);
  }

  /** A marker that names neither stage changes nothing at all. */
  lemma {:induction false} NeutralMarker(prefix: seq<string>, m: string)
    requires IsMarker(m) && !Contains(m, VertexTag) && !Contains(m, FragmentTag)
    ensures Parse(prefix + [m]) == Parse(prefix)
  {
    MarkerLine(prefix, m);
  }

  /**
   * A content line is appended, with exactly one newline, to the buffer of
   * the active stage; read while no stage is active it is the error.
   */
  lemma {:induction false} ContentLine(prefix: seq<string>, line: string)
    requires !IsMarker(line)
    ensures Parse(prefix).Err? ==> Parse(prefix + [line]) == Parse(prefix)
    ensures Parse(prefix).Ok? && Parse(prefix).value.stage == NoStage ==>
      Parse(prefix + [line]) == Err(UnselectedStage(|prefix|))
    ensures Parse(prefix).Ok? && Parse(prefix).value.stage == Vertex ==>
      var s := Parse(prefix).value;
      Parse(prefix + [line]) == Ok(ParserState(Vertex, s.vertex + line + "\n", s.fragment))
    ensures Parse(prefix).Ok? && Parse(prefix).value.stage == Fragment ==>
      var s := Parse(prefix).value;
      Parse(prefix + [line]) == Ok(ParserState(Fragment, s.vertex, s.fragment + line + "\n"))
  {
    RunConcat(Initial, prefix, [line], 0);
  }

  /** A body without markers, read while a stage is active, is added to that stage's buffer as `Join(body)`. */
  lemma {:induction false} RunBody(s: ParserState, body: seq<string>, k: nat)
    requires s.stage != NoStage && NoMarkers(body)
    ensures Run(s, body, k) == Ok(Extend(s, Join(body)))
    decreases |body|
  {
    if body != [] {
      assert !IsMarker(body[0]);
      var s' := Append(s, body[0]);
      assert Step(s, body[0], k) == Ok(s');
      RunBody(s', body[1..], k + 1);
      var text := Join(body[1..]);
      assert Join(body) == body[0] + "\n" + text;
      assert s'.stage == s.stage;
      assert Run(s, body, k) == Run(s', body[1..], k + 1);
      if s.stage == Vertex {
        assert s'.vertex + text == s.vertex + (body[0] + "\n" + text);
        assert Extend(s', text) == Extend(s, Join(body));
      } else {
        assert s'.fragment + text == s.fragment + (body[0] + "\n" + text);
        assert Extend(s', text) == Extend(s, Join(body));
      }
      assert NoMarkers(body[1..]) by {
        forall i | 0 <= i < |body[1..]| ensures !IsMarker(body[1..][i]) {
          assert body[1..][i] == body[i + 1];
        }
      }
    } else {
      assert s.vertex + "" == s.vertex && s.fragment + "" == s.fragment;
    }
  }

  /**
   * A stage-selecting marker followed by a body without markers: the body
   * goes to the stage the marker selects (VERTEX whenever `vertex` appears,
   * even together with `fragment`), after whatever that stage already held.
   */
  lemma {:induction false} Section(prefix: seq<string>, m: string, body: seq<string>)
    requires IsMarker(m) && (Contains(m, VertexTag) || Contains(m, FragmentTag))
    requires NoMarkers(body)
    requires Parse(prefix).Ok?
    ensures
      var s := Parse(prefix).value;
      Parse(prefix + [m] + body) ==
        if Contains(m, VertexTag) then Ok(ParserState(Vertex, s.vertex + Join(body), s.fragment))
        else Ok(ParserState(Fragment, s.vertex, s.fragment + Join(body)))
  {
    MarkerLine(prefix, m);
    var s' := Parse(prefix + [m]).value;
    RunConcat(Initial, prefix + [m], body, 0);
    RunBody(s', body, |prefix + [m]|);
  }

  /** The literal markers of a shader file are markers naming the expected stage. */
  lemma TagFacts()
    ensures IsMarker("#shader vertex") && Contains("#shader vertex", VertexTag)
    ensures IsMarker("#shader fragment") && !Contains("#shader fragment", VertexTag)
    ensures Contains("#shader fragment", FragmentTag)
  {
    assert IsMarker("#shader vertex") by {
      OccurrenceFound("#shader vertex", MarkerTag, 0);
    }
    assert Contains("#shader vertex", VertexTag) by {
      OccurrenceFound("#shader vertex", VertexTag, 8);
    }
    assert IsMarker("#shader fragment") by {
      OccurrenceFound("#shader fragment", MarkerTag, 0);
    }
    assert Contains("#shader fragment", FragmentTag) by {
      OccurrenceFound("#shader fragment", FragmentTag, 8);
    }
    assert !Contains("#shader fragment", VertexTag) by {
      FoundFirstChar("#shader fragment", VertexTag);
    }
  }

  /** Splitting a file whose vertex section comes first gives back both bodies, each line newline-terminated. */
  lemma {:induction false} RoundTripWith(mv: string, mf: string, v: seq<string>, f: seq<string>)
    requires IsMarker(mv) && Contains(mv, VertexTag)
    requires IsMarker(mf) && !Contains(mf, VertexTag) && Contains(mf, FragmentTag)
    requires NoMarkers(v) && NoMarkers(f)
    ensures ParseShaderSpec([mv] + v + [mf] + f) == Ok(ShaderProgramSource(Join(v), Join(f)))
    ensures ParseShaderSpec([mf] + f + [mv] + v) == Ok(ShaderProgramSource(Join(v), Join(f)))
  {
    assert Parse([]) == Ok(Initial);
    Section([], mv, v);
    assert [] + [mv] + v == [mv] + v;
    assert "" + Join(v) == Join(v) && "" + Join(f) == Join(f);
    Section([mv] + v, mf, f);
    assert Parse([mv] + v + [mf] + f) == Ok(ParserState(Fragment, Join(v), Join(f)));
    Section([], mf, f);
    assert [] + [mf] + f == [mf] + f;
    Section([mf] + f, mv, v);
  }

  /**
   * The round trip for the file format itself, in either section order:
   * `#shader vertex`, V, `#shader fragment`, F gives back Join(V) and Join(F).
   */
  lemma RoundTrip(v: seq<string>, f: seq<string>)
    requires NoMarkers(v) && NoMarkers(f)
    ensures ParseShaderSpec(["#shader vertex"] + v + ["#shader fragment"] + f) ==
      Ok(ShaderProgramSource(Join(v), Join(f)))
    ensures ParseShaderSpec(["#shader fragment"] + f + ["#shader vertex"] + v) ==
      Ok(ShaderProgramSource(Join(v), Join(f)))
  {
    TagFacts();
    RoundTripWith("#shader vertex", "#shader fragment", v, f);
  }

  /** One-line bodies used by the examples below. */
  lemma PlainLines()
    ensures NoMarkers(["A"]) && Join(["A"]) == "A\n"
    ensures NoMarkers(["B"]) && Join(["B"]) == "B\n"
  {
    assert !IsMarker("A") && !IsMarker("B");
  }

  /** The file `#shader vertex`, `A`, `#shader fragment`, `B` splits into "A\n" and "B\n". */
  lemma TwoSectionExample()
    ensures ParseShaderSpec(["#shader vertex", "A", "#shader fragment", "B"]) ==
      Ok(ShaderProgramSource("A\n", "B\n"))
  {
    PlainLines();
    RoundTrip(["A"], ["B"]);
    assert ["#shader vertex"] + ["A"] + ["#shader fragment"] + ["B"] ==
      ["#shader vertex", "A", "#shader fragment", "B"];
  }

  /** Two sections for the vertex stage: the second continues the first instead of replacing it. */
  lemma {:induction false} RepeatedSection(mv: string, a: seq<string>, b: seq<string>)
    requires IsMarker(mv) && Contains(mv, VertexTag)
    requires NoMarkers(a) && NoMarkers(b)
    ensures ParseShaderSpec([mv] + a + [mv] + b) == Ok(ShaderProgramSource(Join(a) + Join(b), ""))
  {
    assert Parse([]) == Ok(Initial);
    Section([], mv, a);
    assert [] + [mv] + a == [mv] + a;
    assert "" + Join(a) == Join(a);
    Section([mv] + a, mv, b);
  }

  /** The file `#shader vertex`, `A`, `#shader vertex`, `B` gives "A\nB\n" for the vertex stage. */
  lemma RepeatedMarkerExample()
    ensures ParseShaderSpec(["#shader vertex", "A", "#shader vertex", "B"]) ==
      Ok(ShaderProgramSource("A\nB\n", ""))
  {
    assert ["#shader vertex"] + ["A"] + ["#shader vertex"] + ["B"] ==
      ["#shader vertex", "A", "#shader vertex", "B"];
    assert ParseShaderSpec(["#shader vertex"] + ["A"] + ["#shader vertex"] + ["B"]) ==
      Ok(ShaderProgramSource("A\nB\n", "")) by {
      TagFacts();
      PlainLines();
      RepeatedSection("#shader vertex", ["A"], ["B"]);
      assert "A\n" + "B\n" == "A\nB\n";
    }
  }

  /** Content on the first line, before any marker, is the out-of-bounds write. */
  lemma LeadingContent(lines: seq<string>)
    requires |lines| > 0 && !IsMarker(lines[0])
    ensures ParseShaderSpec(lines) == Err(UnselectedStage(0))
  {
  }

  /** Input without any marker: two empty sources if there is no line at all, otherwise the error at line 0. */
  lemma NoMarkerInput(lines: seq<string>)
    requires NoMarkers(lines)
    ensures lines == [] ==> ParseShaderSpec(lines) == Ok(ShaderProgramSource("", ""))
    ensures lines != [] ==> ParseShaderSpec(lines) == Err(UnselectedStage(0))
  {
    if lines != [] {
      LeadingContent(lines);
    }
  }
}
