/** The divinumofficium file utilities: the section splitter
    `parse_DO_sections` with its `validate_section`, the guess of a file's
    section-header syntax and the links to a commemoration's antiphons. */
module ParserUtil {
  import opened Text
  import opened Py
  import opened Lines
  import Chickenfeed

  // ---- the regular expressions ----

  /** How far `.` can run from `i`: up to the next newline. */
  function LineEnd(s: string, i: nat): (e: nat)
    requires i <= |s|
    ensures i <= e <= |s| && (e < |s| ==> s[e] == '\n')
    ensures forall k :: i <= k < e ==> s[k] != '\n'
  {
    match FindChar(s, '\n', i)
    case Some(k) => k
    case None => |s|
  }

  /** A line that runs from `i` to `e`. */
  lemma LineEndAt(s: string, i: nat, e: nat)
    requires i <= e <= |s| && (e < |s| ==> s[e] == '\n')
    requires forall k :: i <= k < e ==> s[k] != '\n'
    ensures LineEnd(s, i) == e
  {
    if e < |s| {
      FindCharAt(s, '\n', i, e);
    } else {
      assert FindChar(s, '\n', i).None?;
    }
  }

  /** A match of `o(.*)c` starting at `p`: greedy, so it ends at the last
      `c` on the line. */
  function SpanAt(s: string, o: char, c: char, p: nat): (r: Option<nat>)
    requires p < |s|
    ensures r.Some? ==> s[p] == o && p < r.value < LineEnd(s, p + 1) && s[r.value] == c
    ensures r.Some? ==> forall k :: r.value < k < LineEnd(s, p + 1) ==> s[k] != c
    ensures r.None? && s[p] == o ==> forall k :: p < k < LineEnd(s, p + 1) ==> s[k] != c
  {
    if s[p] != o then None
    else match FindLastChar(s, c, LineEnd(s, p + 1))
      case Some(j) => if j > p then Some(j) else None
      case None => None
  }

  /** `re.search` of `o(.*)c`: the leftmost start at or after `i`, and its end. */
  function SearchSpan(s: string, o: char, c: char, i: nat): (r: Option<(nat, nat)>)
    ensures r.Some? ==> i <= r.value.0 < |s| && SpanAt(s, o, c, r.value.0) == Some(r.value.1)
    ensures r.Some? ==> forall k :: i <= k < r.value.0 ==> SpanAt(s, o, c, k).None?
    ensures r.None? ==> forall k :: i <= k < |s| ==> SpanAt(s, o, c, k).None?
    decreases |s| - i
  {
    if i >= |s| then None
    else match SpanAt(s, o, c, i)
      case Some(j) => Some((i, j))
      case None => SearchSpan(s, o, c, i + 1)
  }

  /** The two section-header syntaxes: `\[(.*)\]` and `#(.*)`. */
  datatype HeaderRegex = Bracketed | Hashed

  /** `guess_section_header(fn)`: the Ordinarium files mark their sections with `#`. */
  function GuessSectionHeader(filename: string): (r: HeaderRegex)
    ensures r == Hashed <==> Contains(filename, "Ordinarium")
  {
    if Contains(filename, "Ordinarium") then Hashed else Bracketed
  }

  /** `re.search(section_header_regex, line)` and its group. */
  function HeaderMatch(line: string, regex: HeaderRegex): Option<string> {
    match regex
    case Bracketed =>
      (match SearchSpan(line, '[', ']', 0)
       case Some((p, j)) => Some(line[p + 1..j])
       case None => None)
    case Hashed =>
      (match FindChar(line, '#', 0)
       case Some(p) => Some(line[p + 1..LineEnd(line, p + 1)])
       case None => None)
  }

  /** A line is no header exactly when it has no `#`, or, for brackets,
      when a newline separates every `[` from every later `]`. */
  lemma HeaderAbsent(line: string, regex: HeaderRegex)
    ensures regex == Hashed ==> (HeaderMatch(line, regex).None? <==> '#' !in line)
    ensures regex == Bracketed ==> (HeaderMatch(line, regex).None? <==> forall i, j ::
      0 <= i < j < |line| && line[i] == '[' && line[j] == ']' ==> '\n' in line[i..j])
  {
    if regex == Bracketed {
      if HeaderMatch(line, regex).None? {
        BracketsApart(line);
      } else {
        var (p, j) := SearchSpan(line, '[', ']', 0).value;
        assert '\n' !in line[p..j] by {
          forall k | 0 <= k < j - p ensures line[p..j][k] != '\n' {
            assert line[p..j][k] == line[p + k];
          }
        }
      }
    }
  }

  /** With no span found, every `[` is followed by a newline before any `]`. */
  lemma BracketsApart(line: string)
    requires SearchSpan(line, '[', ']', 0).None?
    ensures forall i, j :: 0 <= i < j < |line| && line[i] == '[' && line[j] == ']' ==> '\n' in line[i..j]
  {
    forall i, j | 0 <= i < j < |line| && line[i] == '[' && line[j] == ']' ensures '\n' in line[i..j] {
      assert SpanAt(line, '[', ']', i).None?;
      var e := LineEnd(line, i + 1);
      assert e <= j;
      assert line[i..j][e - i] == '\n';
    }
  }

  /** A bracketed name is a header, and the name is its group. */
  lemma BracketedName(name: string)
    requires '\n' !in name
    ensures HeaderMatch("[" + name + "]", Bracketed) == Some(name)
  {
    var h := "[" + name + "]";
    assert forall k :: 0 <= k < |h| ==> h[k] != '\n' by {
      forall k | 0 <= k < |h| ensures h[k] != '\n' {
        if 0 < k < |h| - 1 {
          assert h[k] == name[k - 1];
        }
      }
    }
    assert LineEnd(h, 1) == |h|;
    assert SpanAt(h, '[', ']', 0) == Some(|h| - 1);
    assert h[1..|h| - 1] == name;
  }

  /** A line opening with `#` is a header, and the rest of it is the group. */
  lemma HashedName(name: string)
    requires '\n' !in name
    ensures HeaderMatch("#" + name, Hashed) == Some(name)
  {
    var h := "#" + name;
    assert FindChar(h, '#', 0) == Some(0);
    assert h[1..|h|] == name;
    assert LineEnd(h, 1) == |h| by {
      assert forall k :: 1 <= k < |h| ==> h[k] == name[k - 1];
    }
  }

  // ---- `re.sub(r"\[([a-z])\]", "_\1_", line)` ----

  /** The replacement `"_\1_"`: in a plain string literal `\1` is the character 1. */
  const LetterMark: string := "_\U{1}_"

  /** A bracketed lower-case letter starts at `i`. */
  predicate LetterAt(s: string, i: nat) {
    i + 3 <= |s| && s[i] == '[' && IsLower(s[i + 1]) && s[i + 2] == ']'
  }

  predicate NoLetterMark(s: string) {
    forall i :: 0 <= i < |s| ==> !LetterAt(s, i)
  }

  /** Each bracketed letter, left to right, becomes `LetterMark`. */
  function MarkLetters(s: string): (r: string)
    ensures s != [] ==> r != [] && r[0] == (if LetterAt(s, 0) then '_' else s[0])
    decreases |s|
  {
    if s == [] then []
    else if LetterAt(s, 0) then LetterMark + MarkLetters(s[3..])
    else [s[0]] + MarkLetters(s[1..])
  }

  /** No bracketed letter survives the substitution. */
  lemma {:induction false} MarkLettersGone(s: string)
    ensures NoLetterMark(MarkLetters(s))
    decreases |s|
  {
    if s != [] {
      var r := MarkLetters(s);
      if LetterAt(s, 0) {
        MarkLettersGone(s[3..]);
        var t := MarkLetters(s[3..]);
        forall i | 0 <= i < |r| ensures !LetterAt(r, i) {
          if i >= 3 {
            assert r[i..] == t[i - 3..];
            assert !LetterAt(t, i - 3);
          }
        }
      } else {
        MarkLettersGone(s[1..]);
        var t := MarkLetters(s[1..]);
        assert r == [s[0]] + t;
        forall i | 0 <= i < |r| ensures !LetterAt(r, i) {
          if i >= 1 {
            assert r[i..] == t[i - 1..];
            assert !LetterAt(t, i - 1);
          } else if |s| >= 3 && !LetterAt(s[1..], 0) {
            // r starts with s[0], s[1] and the head of MarkLetters(s[2..])
            assert t == [s[1]] + MarkLetters(s[2..]);
            assert r[1] == s[1] && r[2] == MarkLetters(s[2..])[0];
          }
        }
      }
    }
  }

  /** A line with no bracketed letter is left as it is. */
  lemma {:induction false} MarkLettersKeeps(s: string)
    requires NoLetterMark(s)
    ensures MarkLetters(s) == s
    decreases |s|
  {
    if s != [] {
      assert !LetterAt(s, 0);
      assert forall i :: 0 <= i < |s[1..]| ==> s[1..][i..] == s[i + 1..];
      assert NoLetterMark(s[1..]) by {
        forall i | 0 <= i < |s[1..]| ensures !LetterAt(s[1..], i) {
          assert !LetterAt(s, i + 1);
        }
      }
      MarkLettersKeeps(s[1..]);
    }
  }

  /** Stripping cannot bring a bracketed letter back. */
  lemma StripNoMark(s: string)
    requires NoLetterMark(s)
    ensures NoLetterMark(Strip(s))
  {
    var a := SkipSpaces(s, 0);
    var t := Strip(s);
    forall i | 0 <= i < |t| ensures !LetterAt(t, i) {
      assert !LetterAt(s, a + i);
      if i + 3 <= |t| {
        assert t[i] == s[a + i] && t[i + 1] == s[a + i + 1] && t[i + 2] == s[a + i + 2];
      }
    }
  }

  /** A line as the loop sees it: letters marked, then stripped. */
  function Cleaned(raw: string): string {
    Strip(MarkLetters(raw))
  }

  /** A cleaned line is stripped and holds no bracketed letter. */
  lemma CleanedLine(raw: string)
    ensures Strip(Cleaned(raw)) == Cleaned(raw) && NoLetterMark(Cleaned(raw))
  {
    MarkLettersGone(raw);
    StripNoMark(MarkLetters(raw));
    StripTwice(MarkLetters(raw));
  }

  // ---- `validate_section` ----

  /** The length of `is_rubric`'s result: the list of a match's two
      groups, or the pair `(None, None)`. */
  function RubricItems(r: Chickenfeed.Rubric): nat {
    match r
    case Rubric(_, _) => 2
    case NoRubric => 2
  }

  /** The truth of `is_rubric`'s result: a non-empty list or tuple is true. */
  predicate RubricTruthy(r: Chickenfeed.Rubric) {
    RubricItems(r) > 0
  }

  /** `flat_section += i` over the verses. */
  function Flatten(section: seq<seq<Line>>): (flat: seq<Line>)
    ensures forall x :: x in flat <==> exists k :: 0 <= k < |section| && x in section[k]
    decreases |section|
  {
    if section == [] then []
    else
      var front := section[..|section| - 1];
      var flat := Flatten(front) + section[|section| - 1];
      assert forall k :: 0 <= k < |front| ==> front[k] == section[k];
      flat
  }

  predicate AllRubrics(flat: seq<Line>) {
    forall k :: 0 <= k < |flat| ==> RubricTruthy(Chickenfeed.IsRubric(flat[k]))
  }

  /** `validate_section(section)` as a truth value: a non-empty section
      counts unless `all(is_rubric(x) ...)` holds. */
  predicate Valid(section: seq<seq<Line>>) {
    section != [] && !AllRubrics(Flatten(section))
  }

  /** No section is ever valid: `is_rubric` is true for every line. */
  lemma NeverValid(section: seq<seq<Line>>)
    ensures !Valid(section)
  {
  }

  method ValidateSection(section: seq<seq<Line>>) returns (valid: bool)
    ensures valid == Valid(section)
  {
    if section == [] {
      return false;
    }
    var flat: seq<Line> := [];
    for i := 0 to |section|
      invariant flat == Flatten(section[..i])
    {
      assert section[..i + 1][..i] == section[..i];
      flat := flat + section[i];
    }
    assert section[..|section|] == section;
    var i := 0;
    while i < |flat|
      invariant i <= |flat|
      invariant forall k :: 0 <= k < i ==> RubricTruthy(Chickenfeed.IsRubric(flat[k]))
    {
      if !RubricTruthy(Chickenfeed.IsRubric(flat[i])) {
        return true;
      }
      i := i + 1;
    }
    return false;
  }

  // ---- `parse_DO_sections` ----

  /** `[x for x in subcontent if x.content.strip()]`. */
  function NonBlank(sub: seq<Line>): seq<Line>
    decreases |sub|
  {
    if sub == [] then []
    else
      var rest := NonBlank(sub[1..]);
      if Strip(sub[0].content) != [] then [sub[0]] + rest else rest
  }

  /** The filter keeps exactly the non-blank lines. */
  lemma {:induction false} NonBlankKeeps(sub: seq<Line>)
    ensures |NonBlank(sub)| <= |sub|
    ensures forall x :: x in NonBlank(sub) <==> x in sub && Strip(x.content) != []
    decreases |sub|
  {
    if sub != [] {
      NonBlankKeeps(sub[1..]);
      assert sub == [sub[0]] + sub[1..];
    }
  }

  /** The pending verse, if anything is left of it, closes. */
  function Flush(content: seq<seq<Line>>, sub: seq<Line>): seq<seq<Line>> {
    var kept := NonBlank(sub);
    if kept != [] then content + [kept] else content
  }

  /** What a line is to the loop: the verse separator `_`, a section
      header with its name, or text. */
  datatype Event = Close | Header(name: string) | Text(line: Line)

  /** The line numbered `lineno`, marked, stripped and matched against the header regex. */
  function Classify(lineno: int, raw: string, regex: HeaderRegex): Event {
    var line := Cleaned(raw);
    if line == "_" then Close
    else match HeaderMatch(line, regex)
      case Some(name) => Header(name)
      case None => Text(Line(lineno, line))
  }

  /** The events of `lines[from..]`, numbered from 0 at the top of the file. */
  function Events(lines: seq<string>, from: nat, regex: HeaderRegex): (evs: seq<Event>)
    requires from <= |lines|
    ensures |evs| == |lines| - from
    ensures forall k :: 0 <= k < |evs| ==> evs[k] == Classify(from + k, lines[from + k], regex)
  {
    seq(|lines| - from, k requires 0 <= k < |lines| - from => Classify(from + k, lines[from + k], regex))
  }

  /** The loop variables: the sections stored, the current section's name,
      its finished verses and the pending verse. */
  datatype State = State(sections: Dict<string, seq<seq<Line>>>, current: Option<string>,
                         content: seq<seq<Line>>, subcontent: seq<Line>)

  /** `if current_section:` — an empty name is false. */
  predicate Truthy(current: Option<string>) {
    current.Some? && current.value != []
  }

  /** One pass of the loop. */
  function Step(st: State, ev: Event): State {
    match ev
    case Close => State(st.sections, st.current, Flush(st.content, st.subcontent), [])
    case Header(name) =>
      var sections := if Truthy(st.current) then Put(st.sections, st.current.value, Flush(st.content, st.subcontent)) else st.sections;
      State(sections, Some(name), [], [])
    case Text(line) => State(st.sections, st.current, st.content, st.subcontent + [line])
  }

  function Run(st: State, evs: seq<Event>): State
    decreases |evs|
  {
    if evs == [] then st else Run(Step(st, evs[0]), evs[1..])
  }

  /** After the loop: the last section is stored only if it is valid. */
  function Final(st: State): Dict<string, seq<seq<Line>>> {
    var content := Flush(st.content, st.subcontent);
    if Truthy(st.current) && Valid(content) then Put(st.sections, st.current.value, content) else st.sections
  }

  /** `parse_DO_sections(fn, section_header_regex)` over the file's lines.
      When the first line holds a link, `linked` stands for the sections
      of the file it names, and the first line is skipped. */
  function Sections(lines: seq<string>, regex: HeaderRegex, linked: Dict<string, seq<seq<Line>>>): (r: Outcome<Dict<string, seq<seq<Line>>>>)
    ensures r.Throw? <==> lines == []
    ensures r.Throw? ==> r.exc == IndexError
  {
    if lines == [] then Throw(IndexError)
    else if '@' in lines[0] then Return(Final(Run(State(linked, None, [], []), Events(lines, 1, regex))))
    else Return(Final(Run(State([], None, [], []), Events(lines, 0, regex))))
  }

  /** The last section of a file is never stored. */
  lemma LastSectionDropped(st: State)
    ensures Final(st) == st.sections
  {
    NeverValid(Flush(st.content, st.subcontent));
  }

  lemma {:induction false} RunAppend(st: State, a: seq<Event>, b: seq<Event>)
    ensures Run(st, a + b) == Run(Run(st, a), b)
    decreases |a|
  {
    if a == [] {
      assert a + b == b;
    } else {
      assert (a + b)[0] == a[0] && (a + b)[1..] == a[1..] + b;
      RunAppend(Step(st, a[0]), a[1..], b);
    }
  }

  predicate NoHeader(evs: seq<Event>) {
    forall k :: 0 <= k < |evs| ==> !evs[k].Header?
  }

  /** Events other than headers store nothing and keep the current section. */
  lemma {:induction false} RunNoHeader(st: State, evs: seq<Event>)
    requires NoHeader(evs)
    ensures Run(st, evs).sections == st.sections && Run(st, evs).current == st.current
    decreases |evs|
  {
    if evs != [] {
      assert !evs[0].Header?;
      RunNoHeader(Step(st, evs[0]), evs[1..]);
    }
  }

  /** What comes before the first header is discarded: the file parses as
      if it began at that header. */
  lemma LeadingDiscarded(front: seq<Event>, rest: seq<Event>)
    requires NoHeader(front) && rest != [] && rest[0].Header?
    ensures Run(State([], None, [], []), front + rest) == Run(State([], None, [], []), rest)
  {
    var init := State([], None, [], []);
    RunAppend(init, front, rest);
    RunNoHeader(init, front);
    var at := Run(init, front);
    assert Step(at, rest[0]) == Step(init, rest[0]);
    assert rest == [rest[0]] + rest[1..];
  }

  /** What follows the last header changes no stored section. */
  lemma TrailingKept(front: seq<Event>, tail: seq<Event>)
    requires NoHeader(tail)
    ensures Run(State([], None, [], []), front + tail).sections == Run(State([], None, [], []), front).sections
  {
    RunAppend(State([], None, [], []), front, tail);
    RunNoHeader(Run(State([], None, [], []), front), tail);
  }

  /** The text events of a verse's lines. */
  function Texts(verse: seq<Line>): (evs: seq<Event>)
    ensures |evs| == |verse| && forall k :: 0 <= k < |verse| ==> evs[k] == Text(verse[k])
  {
    seq(|verse|, k requires 0 <= k < |verse| => Text(verse[k]))
  }

  lemma {:induction false} RunTexts(st: State, verse: seq<Line>)
    ensures Run(st, Texts(verse)) == State(st.sections, st.current, st.content, st.subcontent + verse)
    decreases |verse|
  {
    if verse == [] {
      assert st.subcontent + verse == st.subcontent;
    } else {
      var evs := Texts(verse);
      assert evs[1..] == Texts(verse[1..]);
      RunTexts(Step(st, evs[0]), verse[1..]);
      assert st.subcontent + [verse[0]] + verse[1..] == st.subcontent + verse;
    }
  }

  lemma {:induction false} NonBlankAll(sub: seq<Line>)
    requires forall k :: 0 <= k < |sub| ==> Strip(sub[k].content) != []
    ensures NonBlank(sub) == sub
    decreases |sub|
  {
    if sub != [] {
      NonBlankAll(sub[1..]);
      assert sub == [sub[0]] + sub[1..];
    }
  }

  /** A named section of non-blank lines, closed by the next header, is
      stored under its name as one verse, the lines in file order. */
  lemma OneSection(name: string, verse: seq<Line>, next: string)
    requires name != [] && verse != []
    requires forall k :: 0 <= k < |verse| ==> Strip(verse[k].content) != []
    ensures Run(State([], None, [], []), [Header(name)] + Texts(verse) + [Header(next)]).sections == [(name, [verse])]
  {
    var init := State([], None, [], []);
    var inside := State([], Some(name), [], []);
    RunAppend(init, [Header(name)] + Texts(verse), [Header(next)]);
    RunAppend(init, [Header(name)], Texts(verse));
    assert Run(init, [Header(name)]) == inside;
    RunTexts(inside, verse);
    assert [] + verse == verse;
    NonBlankAll(verse);
    assert Run(State([], Some(name), [], verse), [Header(next)]) == Step(State([], Some(name), [], verse), Header(next));
    assert [] + [verse] == [verse];
  }

  /** A line of a stored verse: stripped, not blank, not `_`, not a header,
      with no bracketed letter left. */
  predicate Kept(l: Line, regex: HeaderRegex) {
    Pending(l, regex) && l.content != []
  }

  /** A line of the pending verse; it may still be blank. */
  predicate Pending(l: Line, regex: HeaderRegex) {
    Strip(l.content) == l.content && l.content != "_" && HeaderMatch(l.content, regex).None? && NoLetterMark(l.content)
  }

  /** Text events carry pending lines. */
  lemma ClassifyPending(lineno: int, raw: string, regex: HeaderRegex)
    ensures Classify(lineno, raw, regex).Text? ==> Pending(Classify(lineno, raw, regex).line, regex)
    ensures Classify(lineno, raw, regex).Text? ==> Classify(lineno, raw, regex).line.lineno == lineno
  {
    CleanedLine(raw);
  }

  predicate Verses(content: seq<seq<Line>>, regex: HeaderRegex) {
    forall k :: 0 <= k < |content| ==> content[k] != [] && forall j :: 0 <= j < |content[k]| ==> Kept(content[k][j], regex)
  }

  /** Every stored section has a non-empty name, once, and holds non-empty verses of kept lines. */
  predicate Stored(d: Dict<string, seq<seq<Line>>>, regex: HeaderRegex) {
    DistinctKeys(d) && forall i :: 0 <= i < |d| ==> d[i].0 != [] && Verses(d[i].1, regex)
  }

  predicate Good(st: State, regex: HeaderRegex) {
    Stored(st.sections, regex) && Verses(st.content, regex) &&
    forall j :: 0 <= j < |st.subcontent| ==> Pending(st.subcontent[j], regex)
  }

  /** Every text event is a pending line. */
  predicate Classified(evs: seq<Event>, regex: HeaderRegex) {
    forall k :: 0 <= k < |evs| ==> evs[k].Text? ==> Pending(evs[k].line, regex)
  }

  lemma EventsClassified(lines: seq<string>, from: nat, regex: HeaderRegex)
    requires from <= |lines|
    ensures Classified(Events(lines, from, regex), regex)
  {
    var evs := Events(lines, from, regex);
    forall k | 0 <= k < |evs| && evs[k].Text? ensures Pending(evs[k].line, regex) {
      ClassifyPending(from + k, lines[from + k], regex);
    }
  }

  lemma FlushGood(content: seq<seq<Line>>, sub: seq<Line>, regex: HeaderRegex)
    requires Verses(content, regex)
    requires forall j :: 0 <= j < |sub| ==> Pending(sub[j], regex)
    ensures Verses(Flush(content, sub), regex)
  {
    var kept := NonBlank(sub);
    NonBlankKeeps(sub);
    forall j | 0 <= j < |kept| ensures Kept(kept[j], regex) {
      assert kept[j] in kept;
      var l := kept[j];
      assert l in sub;
      assert Strip(l.content) != [];
    }
  }

  lemma {:induction false} PutStored(d: Dict<string, seq<seq<Line>>>, k: string, v: seq<seq<Line>>, regex: HeaderRegex)
    requires Stored(d, regex) && k != [] && Verses(v, regex)
    ensures Stored(Put(d, k, v), regex)
    decreases |d|
  {
    PutDistinct(d, k, v);
    if d != [] && d[0].0 != k {
      PutStored(d[1..], k, v, regex);
      assert Put(d, k, v) == [d[0]] + Put(d[1..], k, v);
    }
  }

  lemma StepGood(st: State, ev: Event, regex: HeaderRegex)
    requires Good(st, regex)
    requires ev.Text? ==> Pending(ev.line, regex)
    ensures Good(Step(st, ev), regex)
  {
    match ev
    case Close =>
      FlushGood(st.content, st.subcontent, regex);
    case Header(_) =>
      if Truthy(st.current) {
        FlushGood(st.content, st.subcontent, regex);
        PutStored(st.sections, st.current.value, Flush(st.content, st.subcontent), regex);
      }
    case Text(_) =>
  }

  lemma {:induction false} RunGood(st: State, evs: seq<Event>, regex: HeaderRegex)
    requires Good(st, regex) && Classified(evs, regex)
    ensures Good(Run(st, evs), regex)
    decreases |evs|
  {
    if evs != [] {
      StepGood(st, evs[0], regex);
      assert Classified(evs[1..], regex) by {
        forall k | 0 <= k < |evs[1..]| ensures evs[1..][k].Text? ==> Pending(evs[1..][k].line, regex) {
          assert evs[1..][k] == evs[k + 1];
        }
      }
      RunGood(Step(st, evs[0]), evs[1..], regex);
    }
  }

  /** The parsed sections are those the loop stored, each with a non-empty
      name, once, holding non-empty verses of stripped, non-blank lines
      that are neither `_` nor headers. */
  lemma SectionsStored(lines: seq<string>, regex: HeaderRegex, linked: Dict<string, seq<seq<Line>>>)
    requires Stored(linked, regex)
    ensures Sections(lines, regex, linked).Return? ==> Stored(Sections(lines, regex, linked).value, regex)
  {
    if lines != [] {
      var st := if '@' in lines[0] then State(linked, None, [], []) else State([], None, [], []);
      var from := if '@' in lines[0] then 1 else 0;
      EventsClassified(lines, from, regex);
      RunGood(st, Events(lines, from, regex), regex);
      LastSectionDropped(Run(st, Events(lines, from, regex)));
    }
  }

  /** The body of the loop for one line. */
  method StepLine(sections: Dict<string, seq<seq<Line>>>, current: Option<string>, content: seq<seq<Line>>,
                  subcontent: seq<Line>, lineno: int, raw: string, regex: HeaderRegex)
    returns (sections': Dict<string, seq<seq<Line>>>, current': Option<string>, content': seq<seq<Line>>, subcontent': seq<Line>)
    ensures State(sections', current', content', subcontent') ==
      Step(State(sections, current, content, subcontent), Classify(lineno, raw, regex))
  {
    sections', current', content', subcontent' := sections, current, content, subcontent;
    var line := Cleaned(raw);
    if line == "_" {
      subcontent' := NonBlank(subcontent);
      if subcontent' != [] {
        content' := content + [subcontent'];
      }
      subcontent' := [];
      return;
    }
    var header := HeaderMatch(line, regex);
    if header.Some? {
      if Truthy(current) {
        subcontent' := NonBlank(subcontent);
        if subcontent' != [] {
          content' := content + [subcontent'];
        }
        sections' := Put(sections, current.value, content');
      }
      current' := header;
      content' := [];
      subcontent' := [];
    } else {
      subcontent' := subcontent + [Line(lineno, line)];
    }
  }

  /** The loop of `parse_DO_sections`: the linked first line is skipped
      by starting the numbering at 1. */
  method ParseDOSections(lines: seq<string>, regex: HeaderRegex, linked: Dict<string, seq<seq<Line>>>)
    returns (r: Outcome<Dict<string, seq<seq<Line>>>>)
    ensures r == Sections(lines, regex, linked)
  {
    if lines == [] {
      return Throw(IndexError);
    }
    var sections: Dict<string, seq<seq<Line>>> := [];
    var start := 0;
    if '@' in lines[0] {
      sections := linked;
      start := 1;
    }
    var current, content, subcontent;
    sections, current, content, subcontent := LineLoop(sections, lines, start, regex);
    sections := StoreLast(sections, current, content, subcontent);
    return Return(sections);
  }

  /** `for lineno, line in enumerate(lines)` from line `start`. */
  method LineLoop(sections0: Dict<string, seq<seq<Line>>>, lines: seq<string>, start: nat, regex: HeaderRegex)
    returns (sections: Dict<string, seq<seq<Line>>>, current: Option<string>, content: seq<seq<Line>>, subcontent: seq<Line>)
    requires start <= |lines|
    ensures State(sections, current, content, subcontent) == Run(State(sections0, None, [], []), Events(lines, start, regex))
  {
    sections, current, content, subcontent := sections0, None, [], [];
    ghost var evs := Events(lines, start, regex);
    for lineno := start to |lines|
      invariant Run(State(sections0, None, [], []), evs) == Run(State(sections, current, content, subcontent), evs[lineno - start..])
    {
      ghost var st := State(sections, current, content, subcontent);
      ghost var ev := Classify(lineno, lines[lineno], regex);
      RunFirst(st, evs[lineno - start..], ev, evs[lineno + 1 - start..]);
      sections, current, content, subcontent := StepLine(sections, current, content, subcontent, lineno, lines[lineno], regex);
      assert State(sections, current, content, subcontent) == Step(st, ev);
    }
    assert evs[|lines| - start..] == [];
  }

  /** Running a non-empty list of events is running its first event, then the others. */
  lemma RunFirst(st: State, evs: seq<Event>, ev: Event, rest: seq<Event>)
    requires evs != [] && evs[0] == ev && evs[1..] == rest
    ensures Run(st, evs) == Run(Step(st, ev), rest)
  {
  }

  /** After the loop: the last section, validated. */
  method StoreLast(sections: Dict<string, seq<seq<Line>>>, current: Option<string>, content: seq<seq<Line>>, subcontent: seq<Line>)
    returns (r: Dict<string, seq<seq<Line>>>)
    ensures r == Final(State(sections, current, content, subcontent))
  {
    r := sections;
    if Truthy(current) {
      var name := current.value;
      var kept := NonBlank(subcontent);
      var verses := content;
      if kept != [] {
        verses := verses + [kept];
      }
      var valid := ValidateSection(verses);
      if valid {
        // `validate_section` is never true (see `NeverValid`), so this
        // store cannot run.
        r := Put(sections, name, verses);
      }
    }
  }

  // ---- `generate_commemoration_links` ----

  /** The group of `re.search(r"(@.*:).*", linkstr)`: from the first `@`
      through the last `:` on its line. */
  function CommemorationBase(linkstr: string): (r: Option<string>)
    ensures r.Some? ==> |r.value| >= 2 && r.value[0] == '@' && r.value[|r.value| - 1] == ':' && '\n' !in r.value
  {
    match SearchSpan(linkstr, '@', ':', 0)
    case Some((p, j)) =>
      var b := linkstr[p..j + 1];
      assert forall k :: 0 <= k < |b| ==> b[k] == linkstr[p + k];
      Some(b)
    case None => None
  }

  /** `generate_commemoration_links(linkstr)`: the antiphon and versicle
      links beside an oratio link; `AttributeError` when there is no link. */
  function CommemorationLinks(linkstr: string): (r: Outcome<seq<string>>)
    ensures r.Throw? <==> CommemorationBase(linkstr).None?
    ensures r.Throw? ==> r.exc == AttributeError
    ensures r.Return? ==> (|r.value| == 4 &&
      forall k :: 0 <= k < 4 ==> StartsWith(r.value[k], CommemorationBase(linkstr).value))
  {
    match CommemorationBase(linkstr)
    case None => Throw(AttributeError)
    case Some(base) =>
      var links := [base + "Ant 1", base + "Versum 1", base + "Ant 2", base + "Versum 2"];
      assert forall k :: 0 <= k < 4 ==> links[k][..|base|] == base;
      Return(links)
  }

  /** The link of an oratio, `@file:part`, keeps everything up to the colon
      and points at the antiphons and versicles of the same file. */
  lemma OratioLinks(target: string, part: string)
    requires '\n' !in target && '\n' !in part && ':' !in part
    ensures CommemorationLinks("@" + target + ":" + part) ==
      Return(["@" + target + ":Ant 1", "@" + target + ":Versum 1", "@" + target + ":Ant 2", "@" + target + ":Versum 2"])
  {
    var s := "@" + target + ":" + part;
    var j := |target| + 1;
    assert forall k :: 1 <= k < |s| ==> s[k] != '\n' by {
      forall k | 1 <= k < |s| ensures s[k] != '\n' {
        if k <= |target| {
          assert s[k] == target[k - 1];
        } else if k > j {
          assert s[k] == part[k - j - 1];
        }
      }
    }
    assert LineEnd(s, 1) == |s|;
    assert forall k :: j < k < |s| ==> s[k] == part[k - j - 1];
    FindLastCharAt(s, ':', j, |s|);
    assert SpanAt(s, '@', ':', 0) == Some(j);
    var base := "@" + target + ":";
    assert s[0..j + 1] == base;
    assert base + "Ant 1" == "@" + target + ":Ant 1";
    assert base + "Versum 1" == "@" + target + ":Versum 1";
    assert base + "Ant 2" == "@" + target + ":Ant 2";
    assert base + "Versum 2" == "@" + target + ":Versum 2";
  }
}
