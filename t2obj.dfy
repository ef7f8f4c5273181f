/** `T2obj.parse_DO_sections`: a divinumofficium file is cut into sections
    at lines of the form "[name]"; each section's stripped lines are
    stored under its name once the next header arrives. */
module T2obj {
  import opened Text
  import opened Py

  /** A stripped line that opens a section. */
  predicate IsHeader(line: string) {
    StartsWith(line, "[") && EndsWith(line, "]")
  }

  const Brackets: set<char> := {'[', ']'}

  /** `line.strip("[]")`: the section's name. */
  function HeaderName(line: string): string {
    StripChars(line, Brackets)
  }

  /** `line.strip() == ""`, stated as a line of whitespace only (see
      `BlankStrips`). */
  predicate Blank(line: string) {
    forall k :: 0 <= k < |line| ==> IsSpace(line[k])
  }

  /** A line is blank exactly when stripping it leaves nothing. */
  lemma BlankStrips(line: string)
    ensures Blank(line) <==> Strip(line) == []
  {
    var a := SkipSpaces(line, 0);
    var b := TrimEnd(line, a, |line|);
    assert |Strip(line)| == b - a;
  }

  /** The content of a finished section once its trailing blank lines are
      popped; `None` when nothing but blank lines is left (the `IndexError`
      of `content[-1]` on an empty list). */
  function TrimTrailing(content: seq<string>): (r: Option<seq<string>>)
    ensures r.Some? ==> r.value != [] && r.value <= content && !Blank(r.value[|r.value| - 1])
    decreases |content|
  {
    if content == [] then None
    else if Blank(content[|content| - 1]) then TrimTrailing(content[..|content| - 1])
    else Some(content)
  }

  /** `None` means there was nothing but blank lines. */
  lemma {:induction false} TrimTrailingBlanks(content: seq<string>)
    ensures TrimTrailing(content).None? <==> forall k :: 0 <= k < |content| ==> Blank(content[k])
    decreases |content|
  {
    if content != [] && Blank(content[|content| - 1]) {
      var front := content[..|content| - 1];
      TrimTrailingBlanks(front);
      assert forall k :: 0 <= k < |front| ==> front[k] == content[k];
    }
  }

  /** Only blank lines are popped. */
  lemma {:induction false} TrimTrailingPopsBlanks(content: seq<string>)
    requires TrimTrailing(content).Some?
    ensures forall k :: |TrimTrailing(content).value| <= k < |content| ==> Blank(content[k])
    decreases |content|
  {
    var last := |content| - 1;
    if Blank(content[last]) {
      var front := content[..last];
      assert TrimTrailing(content) == TrimTrailing(front);
      TrimTrailingPopsBlanks(front);
      forall k | |TrimTrailing(front).value| <= k < |content| ensures Blank(content[k]) {
        if k < last {
          assert content[k] == front[k];
        }
      }
    }
  }

  /** The loop variables: the sections stored so far, the current
      section's name (`None` before the first header) and its lines. */
  datatype State = State(sections: Dict<string, Option<seq<string>>>, current: Option<string>, content: seq<string>)

  const Initial: State := State([], None, [])

  /** `if current_section:` — a name is stored only when it is a non-empty string. */
  predicate Truthy(current: Option<string>) {
    current.Some? && current.value != []
  }

  /** One pass of the loop. */
  function Step(st: State, raw: string): State {
    var line := Strip(raw);
    if line == "_" then st
    else if IsHeader(line) then
      var sections := if Truthy(st.current) then Put(st.sections, st.current.value, TrimTrailing(st.content)) else st.sections;
      State(sections, Some(HeaderName(line)), [])
    else State(st.sections, st.current, st.content + [line])
  }

  function Run(st: State, lines: seq<string>): State
    decreases |lines|
  {
    if lines == [] then st else Run(Step(st, lines[0]), lines[1..])
  }

  /** `parse_DO_sections(lines)`. */
  function Sections(lines: seq<string>): Dict<string, Option<seq<string>>> {
    Run(Initial, lines).sections
  }

  lemma {:induction false} RunAppend(st: State, a: seq<string>, b: seq<string>)
    ensures Run(st, a + b) == Run(Run(st, a), b)
    decreases |a|
  {
    if a != [] {
      assert (a + b)[0] == a[0] && (a + b)[1..] == a[1..] + b;
      assert Run(st, a) == Run(Step(st, a[0]), a[1..]);
      RunAppend(Step(st, a[0]), a[1..], b);
    } else {
      assert a + b == b;
    }
  }

  /** No line of `lines` is a header once stripped. */
  predicate NoHeader(lines: seq<string>) {
    forall k :: 0 <= k < |lines| ==> !IsHeader(Strip(lines[k]))
  }

  /** Lines without a header only add to the current section. */
  lemma {:induction false} RunNoHeader(st: State, lines: seq<string>)
    requires NoHeader(lines)
    ensures Run(st, lines).sections == st.sections && Run(st, lines).current == st.current
    decreases |lines|
  {
    if lines != [] {
      assert !IsHeader(Strip(lines[0]));
      RunNoHeader(Step(st, lines[0]), lines[1..]);
    }
  }

  /** The last section is never stored: what follows the last header
      changes nothing. */
  lemma LastSectionDropped(lines: seq<string>, tail: seq<string>)
    requires NoHeader(tail)
    ensures Sections(lines + tail) == Sections(lines)
  {
    RunAppend(Initial, lines, tail);
    RunNoHeader(Run(Initial, lines), tail);
  }

  /** Lines before the first header are discarded. */
  lemma LeadingDiscarded(lines: seq<string>, rest: seq<string>)
    requires NoHeader(lines)
    requires rest != [] && IsHeader(Strip(rest[0]))
    ensures Sections(lines + rest) == Sections(rest)
  {
    {
      RunAppend(Initial, lines, rest);
      RunNoHeader(Initial, lines);
      var st := Run(Initial, lines);
      assert Step(st, rest[0]) == Step(Initial, rest[0]);
      assert rest == [rest[0]] + rest[1..];
      assert Run(st, rest) == Run(Step(st, rest[0]), rest[1..]);
      assert Run(Initial, rest) == Run(Step(Initial, rest[0]), rest[1..]);
    }
  }

  /** A line of content as the loop keeps it: stripped, not "_", not a header. */
  predicate ContentLine(line: string) {
    Strip(line) == line && line != "_" && !IsHeader(line)
  }

  /** What every stored section looks like. */
  predicate Stored(name: string, value: Option<seq<string>>) {
    name != [] &&
    (value.Some? ==>
      value.value != [] && value.value[|value.value| - 1] != [] &&
      (forall j :: 0 <= j < |value.value| ==> ContentLine(value.value[j])))
  }

  predicate Good(st: State) {
    DistinctKeys(st.sections) &&
    (forall i :: 0 <= i < |st.sections| ==> Stored(st.sections[i].0, st.sections[i].1)) &&
    (forall j :: 0 <= j < |st.content| ==> ContentLine(st.content[j]))
  }

  lemma StepGood(st: State, raw: string)
    requires Good(st)
    ensures Good(Step(st, raw))
  {
    var line := Strip(raw);
    if line == "_" {
    } else if IsHeader(line) {
      if Truthy(st.current) {
        TrimmedStored(st.current.value, st.content);
        PutStored(st.sections, st.current.value, TrimTrailing(st.content));
      }
    } else {
      StripTwice(raw);
      assert ContentLine(line);
      var c := st.content + [line];
      assert Step(st, raw) == State(st.sections, st.current, c);
      assert forall j :: 0 <= j < |c| ==> ContentLine(c[j]) by {
        forall j | 0 <= j < |c| ensures ContentLine(c[j]) {
          if j < |st.content| {
            assert c[j] == st.content[j];
          }
        }
      }
    }
  }

  /** A finished section of content lines is stored in the required shape. */
  lemma TrimmedStored(name: string, content: seq<string>)
    requires name != [] && forall j :: 0 <= j < |content| ==> ContentLine(content[j])
    ensures Stored(name, TrimTrailing(content))
  {
    StoredShape(name, content, TrimTrailing(content));
  }

  /** A front part of a section of content lines, ending in a line that is
      not blank, is stored in the required shape. */
  lemma StoredShape(name: string, content: seq<string>, v: Option<seq<string>>)
    requires name != [] && forall j :: 0 <= j < |content| ==> ContentLine(content[j])
    requires v.Some? ==> v.value != [] && v.value <= content && !Blank(v.value[|v.value| - 1])
    ensures Stored(name, v)
  {
    if v.Some? {
      PrefixContent(v.value, content);
    }
  }

  /** The lines kept from the front of a section of content lines are
      content lines, the last of them not empty when it is not blank. */
  lemma PrefixContent(c: seq<string>, content: seq<string>)
    requires c != [] && c <= content && !Blank(c[|c| - 1])
    requires forall j :: 0 <= j < |content| ==> ContentLine(content[j])
    ensures c[|c| - 1] != [] && forall j :: 0 <= j < |c| ==> ContentLine(c[j])
  {
    forall j | 0 <= j < |c| ensures ContentLine(c[j]) {
      assert c[j] == content[j];
    }
  }

  lemma {:induction false} PutStored(d: Dict<string, Option<seq<string>>>, k: string, v: Option<seq<string>>)
    requires forall i :: 0 <= i < |d| ==> Stored(d[i].0, d[i].1)
    requires Stored(k, v) && DistinctKeys(d)
    ensures DistinctKeys(Put(d, k, v))
    ensures forall i :: 0 <= i < |Put(d, k, v)| ==> Stored(Put(d, k, v)[i].0, Put(d, k, v)[i].1)
    decreases |d|
  {
    PutDistinct(d, k, v);
    if d != [] && d[0].0 != k {
      PutStored(d[1..], k, v);
      assert Put(d, k, v) == [d[0]] + Put(d[1..], k, v);
    }
  }

  lemma {:induction false} RunGood(st: State, lines: seq<string>)
    requires Good(st)
    ensures Good(Run(st, lines))
    decreases |lines|
  {
    if lines != [] {
      StepGood(st, lines[0]);
      RunGood(Step(st, lines[0]), lines[1..]);
    }
  }

  /** Every stored section has a non-empty name, appears once, and holds
      either `None` or stripped content lines that end in a non-blank one. */
  lemma SectionsStored(lines: seq<string>)
    ensures DistinctKeys(Sections(lines))
    ensures forall i :: 0 <= i < |Sections(lines)| ==> Stored(Sections(lines)[i].0, Sections(lines)[i].1)
  {
    RunGood(Initial, lines);
  }

  /** A section between two headers is stored under its name with its
      trailing blank lines removed. */
  lemma OneSection(name: string, body: seq<string>, next: string)
    requires name != [] && name[0] !in Brackets && name[|name| - 1] !in Brackets
    requires forall k :: 0 <= k < |body| ==> ContentLine(body[k])
    ensures Sections(["[" + name + "]"] + body + ["[" + next + "]"]) == [(name, TrimTrailing(body))]
  {
    var h1, h2 := "[" + name + "]", "[" + next + "]";
    HeaderLine(name);
    HeaderLine(next);
    var st := Step(Initial, h1);
    assert st == State([], Some(name), []) by {
      BracketsStripped(name);
    }
    var mid := BodyRun(st, body);
    RunAppend(Initial, [h1] + body, [h2]);
    RunAppend(Initial, [h1], body);
    assert Run(Initial, [h1]) == st;
    assert Run(Run(Initial, [h1] + body), [h2]) == Step(mid, h2);
  }

  /** Content lines are collected one after another. */
  lemma {:induction false} BodyRunAt(st: State, body: seq<string>)
    requires forall k :: 0 <= k < |body| ==> ContentLine(body[k])
    ensures Run(st, body) == State(st.sections, st.current, st.content + body)
    decreases |body|
  {
    if body == [] {
      assert st.content + body == st.content;
    } else {
      assert ContentLine(body[0]);
      var next := State(st.sections, st.current, st.content + [body[0]]);
      assert Step(st, body[0]) == next;
      BodyRunAt(next, body[1..]);
      assert st.content + [body[0]] + body[1..] == st.content + body;
    }
  }

  function BodyRun(st: State, body: seq<string>): (r: State)
    requires st.content == []
    requires forall k :: 0 <= k < |body| ==> ContentLine(body[k])
    ensures r == Run(st, body) && r == State(st.sections, st.current, body)
  {
    BodyRunAt(st, body);
    assert st.content + body == body;
    State(st.sections, st.current, body)
  }

  /** A bracketed line is its own strip, and a header. */
  lemma HeaderLine(name: string)
    ensures Strip("[" + name + "]") == "[" + name + "]"
    ensures IsHeader("[" + name + "]")
  {
    var h := "[" + name + "]";
    StripKeeps(h);
    assert h[..1] == "[";
    assert h[|h| - 1..] == "]";
  }

  /** `"[name]".strip("[]")` is `name` when `name` has no bracket at either end. */
  lemma BracketsStripped(name: string)
    requires name != [] && name[0] !in Brackets && name[|name| - 1] !in Brackets
    ensures HeaderName("[" + name + "]") == name
  {
    var h := "[" + name + "]";
    var t := name + "]";
    assert h[0] in Brackets && h[1..] == t;
    assert t[0] == name[0] && t[|t| - 1] in Brackets && t[..|t| - 1] == name;
    assert StripChars(h, Brackets) == StripChars(t, Brackets);
    assert StripChars(t, Brackets) == StripChars(name, Brackets);
  }

  /** `while content[-1].strip() == "": content.pop()`, with the
      `IndexError` of an emptied list giving `None`. */
  method PopBlanks(content: seq<string>) returns (r: Option<seq<string>>)
    ensures r == TrimTrailing(content)
  {
    var c := content;
    while true
      invariant c <= content
      invariant TrimTrailing(c) == TrimTrailing(content)
      decreases |c|
    {
      if c == [] {
        return None;
      }
      if !Blank(c[|c| - 1]) {
        return Some(c);
      }
      c := c[..|c| - 1];
    }
  }

  /** The loop of `parse_DO_sections`. */
  method ParseSections(lines: seq<string>) returns (sections: Dict<string, Option<seq<string>>>)
    ensures sections == Sections(lines)
  {
    sections := [];
    var current: Option<string> := None;
    var content: seq<string> := [];
    for i := 0 to |lines|
      invariant Run(Initial, lines) == Run(State(sections, current, content), lines[i..])
    {
      assert lines[i..][0] == lines[i] && lines[i..][1..] == lines[i + 1..];
      var line := Strip(lines[i]);
      if line == "_" {
        continue;
      }
      if IsHeader(line) {
        if Truthy(current) {
          var trimmed := PopBlanks(content);
          sections := Put(sections, current.value, trimmed);
        }
        current := Some(HeaderName(line));
        content := [];
      } else {
        content := content + [line];
      }
    }
    assert lines[|lines|..] == [];
  }
}
