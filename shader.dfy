/**
 * The shader-source splitter of snake/main.cpp.
 *
 * `ParseShader` reads a text resource line by line. A line containing
 * `#shader` is a marker: one that also contains `vertex` makes VERTEX the
 * active stage, otherwise one that contains `fragment` makes FRAGMENT the
 * active stage, otherwise the stage is left as it was. Every other line is
 * appended, followed by a newline, to the buffer of the active stage.
 *
 * The input stream is given as the sequence of lines `std::getline` would
 * produce (no newline characters); a file that cannot be opened gives no
 * lines at all.
 *
 * Before the first stage-selecting marker the stage is NONE (-1), and a
 * content line read then is written to `ss[-1]`, outside the two-element
 * buffer array. The model reports that line as `Err(UnselectedStage(k))`,
 * `k` being its index, instead of continuing.
 */
module Shader {
  import opened Wrappers
  import opened Strings

  /** The `ShaderType` enumeration: NONE = -1, VERTEX = 0, FRAGMENT = 1. */
  datatype ShaderType = NoStage | Vertex | Fragment

  /** The enumerator's integer value, used by the source to index `ss`. */
  function Slot(t: ShaderType): (i: int)
    ensures -1 <= i <= 1
    ensures i < 0 <==> t == NoStage
  {
    match t
    case NoStage => -1
    case Vertex => 0
    case Fragment => 1
  }

  /** The record `ParseShader` returns. */
  datatype ShaderProgramSource = ShaderProgramSource(vertexShader: string, fragmentShader: string)

  /** Why a parse stops: content read while no stage is active (the write to `ss[-1]`). */
  datatype ParseError = UnselectedStage(line: nat)

  /** The parser's state between two lines: the active stage and the two buffers `ss[0]`, `ss[1]`. */
  datatype ParserState = ParserState(stage: ShaderType, vertex: string, fragment: string)

  const Initial := ParserState(NoStage, "", "")

  const MarkerTag := "#shader"
  const VertexTag := "vertex"
  const FragmentTag := "fragment"

  /** A line that switches (or tries to switch) the active stage. */
  predicate IsMarker(line: string)
  {
    Contains(line, MarkerTag)
  }

  /** The stage active after the marker `line` has been read in stage `t`. */
  function Retarget(t: ShaderType, line: string): ShaderType
  {
    if Contains(line, VertexTag) then Vertex
    else if Contains(line, FragmentTag) then Fragment
    else t
  }

  /** `line + "\n"` appended to the buffer of the active stage. */
  function Append(s: ParserState, line: string): ParserState
    requires s.stage != NoStage
  {
    if s.stage == Vertex then s.(vertex := s.vertex + line + "\n")
    else s.(fragment := s.fragment + line + "\n")
  }

  /** One iteration of the loop, on the line with index `k`. */
  function Step(s: ParserState, line: string, k: nat): Result<ParserState, ParseError>
  {
    if IsMarker(line) then Ok(s.(stage := Retarget(s.stage, line)))
    else if s.stage == NoStage then Err(UnselectedStage(k))
    else Ok(Append(s, line))
  }

  /** The loop run from state `s` over `lines`, the first of which has index `k`. */
  function Run(s: ParserState, lines: seq<string>, k: nat): Result<ParserState, ParseError>
    decreases |lines|
  {
    if lines == [] then Ok(s)
    else
      match Step(s, lines[0], k)
      case Err(e) => Err(e)
      case Ok(s') => Run(s', lines[1..], k + 1)
  }

  /** The final state after the whole input. */
  function Parse(lines: seq<string>): Result<ParserState, ParseError>
  {
    Run(Initial, lines, 0)
  }

  /** The record built from the final buffers: `{ss[0].str(), ss[1].str()}`. */
  function Output(s: ParserState): ShaderProgramSource
  {
    ShaderProgramSource(s.vertex, s.fragment)
  }

  /** What `ParseShader` returns for `lines`. */
  function ParseShaderSpec(lines: seq<string>): Result<ShaderProgramSource, ParseError>
  {
    match Parse(lines)
    case Err(e) => Err(e)
    case Ok(s) => Ok(Output(s))
  }

  /**
   * `ParseShader`: the `while (std::getline(...))` loop with the active
   * stage `type` and the buffer array `ss` of two string streams.
   */
  method ParseShader(lines: seq<string>) returns (r: Result<ShaderProgramSource, ParseError>)
    ensures r == ParseShaderSpec(lines)
  {
    var ss := new string[2](_ => "");
    var t := NoStage;
    var i := 0;
    while i < |lines|
      invariant 0 <= i <= |lines|
      invariant Parse(lines) == Run(ParserState(t, ss[0], ss[1]), lines[i..], i)
    {
      var line := lines[i];
      if Contains(line, MarkerTag) {
        if Contains(line, VertexTag) {
          t := Vertex;
        } else if Contains(line, FragmentTag) {
          t := Fragment;
        }
      } else {
        var slot := Slot(t);
        if slot < 0 {
          return Err(UnselectedStage(i));
        }
        ss[slot] := ss[slot] + line + "\n";
      }
      i := i + 1;
    }
    return Ok(ShaderProgramSource(ss[0], ss[1]));
  }
}
