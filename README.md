# Shader-source splitter of the Snake experiment

This project models `ParseShader`, the one piece of logic in `snake/main.cpp`.
It reads a text resource holding two tagged sections and returns a
`ShaderProgramSource` record with the vertex-stage source and the
fragment-stage source. Everything else in the repository sets up a window and
an OpenGL context.

What `ParseShader` does, and what the model states:

- The resource is read line by line. The model takes the lines that
  `std::getline` would produce, as a `seq<string>` without newline characters.
  A file that cannot be opened yields no lines.
- A line that contains `#shader` anywhere is a *marker*. `std::string::find`
  is modelled by `Strings.Find`, which gives the first occurrence or `None`
  for `npos`.
- A marker that contains `vertex` makes VERTEX the active stage. Otherwise, a
  marker that contains `fragment` makes FRAGMENT the active stage. Otherwise
  the stage stays as it was.
- Every other line is appended to the active stage's buffer, followed by one
  `'\n'`. The two buffers are the array `ss` of two string streams. They are
  never cleared, so a second section for the same stage continues the first.
- The active stage starts as `NONE = -1`. A content line read in that state is
  written to `ss[-1]`, outside the array. That is undefined behaviour in C++.
  The model makes it an explicit error: `Err(UnselectedStage(k))`, where `k`
  is the index of the offending line. The method stops at that line.

`Shader.ParseShader` is the imperative loop. It keeps a local two-element
`array<string>` indexed by the enumerator's integer value (`Shader.Slot`).
It is proved equal to `Shader.ParseShaderSpec`, a recursive specification
built from `Shader.Step` (one loop iteration) and `Shader.Run` (the loop).
`ShaderLemmas` proves the line-level and section-level properties.
`ShaderReference` gives an independent declarative description and proves
that the splitter equals it on every input. In that description, the stage in
force is the one named by the last stage-naming marker so far. Each stage's
text is the content lines owned by that stage, in input order. The error is
the first content line before any stage-naming marker.

How the code treats three edge cases:

- Content before the first marker is not discarded. The code writes it to
  `ss[-1]`, and the model reports the error.
- A repeated marker does not reset its stage. The code appends to that stage's
  existing buffer (`ShaderLemmas.RepeatedSection`).
- Input without markers gives two empty buffers only when it has no lines at
  all. Any content line gives the error at line 0 (`ShaderLemmas.NoMarkerInput`).

## Model

| member | source | states |
|---|---|---|
| `Strings.Find` | snake/main.cpp:36-39 | `find` returns a position exactly when the pattern occurs; that position is an occurrence and no earlier position is one (`None` plays `npos`) |
| `Shader.Slot` | snake/main.cpp:31-32 | the `ShaderType` values are -1, 0, 1; the index used for `ss` is negative exactly for NONE |
| `Shader.ParseShader` | snake/main.cpp:29-47 | the loop with stage variable and two-buffer array returns exactly `ParseShaderSpec(lines)`: the error at the first out-of-bounds line, or the two buffers |
| `ShaderLemmas.RunConcat` | snake/main.cpp:35-45 | running the loop over `a + b` is running it over `a`, then over `b` from the state `a` left, with line numbers continuing; an error in `a` is final |
| `ShaderLemmas.EmptyInput` | snake/main.cpp:30-46 | no input lines (including a file that fails to open) gives two empty sources |
| `ShaderLemmas.MarkerLine` | snake/main.cpp:36-41 | a marker adds nothing to either buffer; it selects VERTEX if it contains `vertex`, else FRAGMENT if it contains `fragment`, else keeps the stage |
| `ShaderLemmas.NeutralMarker` | snake/main.cpp:36-42 | a `#shader` line naming neither stage leaves the whole state unchanged |
| `ShaderLemmas.ContentLine` | snake/main.cpp:42-44 | a content line is appended, with exactly one newline, to the active stage's buffer only; in stage NONE it is the error at that line's index |
| `ShaderLemmas.RunBody` | snake/main.cpp:35-45 | a marker-free body read while a stage is active adds `Join(body)` to that stage's buffer and keeps the stage |
| `ShaderLemmas.Section` | snake/main.cpp:37-43 | a stage-naming marker then a marker-free body appends the body to the selected stage's existing text; VERTEX wins when both words appear |
| `ShaderLemmas.TagFacts` | snake/main.cpp:36-40 | `#shader vertex` is a marker naming `vertex`; `#shader fragment` is a marker naming `fragment` and not `vertex` |
| `ShaderLemmas.RoundTripWith` | snake/main.cpp:35-46 | for any vertex and fragment markers and marker-free bodies V and F, both section orders give back `Join(V)` and `Join(F)` |
| `ShaderLemmas.RoundTrip` | snake/main.cpp:35-46 | the same round trip for the literal `#shader vertex` / `#shader fragment` file format, in either order |
| `ShaderLemmas.TwoSectionExample` | snake/main.cpp:35-46 | lines `#shader vertex`, `A`, `#shader fragment`, `B` give `("A\n", "B\n")` |
| `ShaderLemmas.RepeatedSection` | snake/main.cpp:34-43 | two vertex sections give the concatenation of both bodies: the buffers are never reset |
| `ShaderLemmas.RepeatedMarkerExample` | snake/main.cpp:34-43 | lines `#shader vertex`, `A`, `#shader vertex`, `B` give `("A\nB\n", "")` |
| `ShaderLemmas.LeadingContent` | snake/main.cpp:31-43 | content on the first line, before any marker, is the `ss[-1]` error at line 0 |
| `ShaderLemmas.NoMarkerInput` | snake/main.cpp:31-46 | input without markers gives two empty sources only when empty, and otherwise the error at line 0 |
| `ShaderReference.FirstUnselected` | snake/main.cpp:31-43 | finds the first content line read before any stage is named, or reports that there is none |
| `ShaderReference.JoinSnoc` | snake/main.cpp:43 | appending a line to a body appends the line and one newline to its text |
| `ShaderReference.UnselectedInPrefix` | snake/main.cpp:35-43 | whether an earlier line is an out-of-bounds write does not depend on later lines |
| `ShaderReference.Agree` | snake/main.cpp:29-47 | after any input, the parser's stage is the last named one and each buffer is the joined owned lines; an error is at the first unselected content line |
| `ShaderReference.ParseMatchesReference` | snake/main.cpp:29-47 | the splitter's result equals the declarative reference on every input, errors included |
| `ShaderReference.OwnedHasNoMarkers` | snake/main.cpp:36-44 | no marker line ever appears in either stage's text |
| `ShaderReference.NoStageUntilNamed` | snake/main.cpp:31-41 | stage NONE is in force exactly until the first stage-naming marker, and never returns after it |

## Left out

- `snake/main.c`: window creation, callbacks and immediate-mode drawing only; it has no logic of its own.
- `CompileShader` and `CreateShader` (snake/main.cpp:60-97): thin wrappers over OpenGL driver calls whose handles and compile status come from the driver. `CompileShader` returns 0 on failure, and `CreateShader` attaches, links and validates regardless.
- `GLCLearError` and `GLCheckError` (snake/main.cpp:13-22): loops over the driver's `glGetError` state.
- `main` (snake/main.cpp:99-168): GLFW/GLEW initialisation, float vertex-buffer uploads and the render loop.
- `error_callback` and `key_callback`: console printing only.
- The `std::ifstream` / `std::getline` mechanics: the input is the sequence of lines they would produce, and a file that fails to open is the empty sequence. The bytes of a C++ `std::string` are modelled as Dafny `char`s; nothing is lost, since the three patterns searched for are ASCII and a `char` can hold any byte value.
- Shader.ParseShader: what the C++ program does after writing to `ss[-1]` is undefined; the model stops there with an error instead of giving a result.
