/** `P2obj`: a divinumofficium psalm file, read line by line into verses.
    A file that is not a psalm (a canticle or a creed) is read again as a
    creed: its first line names it and every other line is a verse. */
module P2obj {
  import opened Text
  import opened Py
  import ParserUtil

  /** The fields `parse_file` and `parse_creed` give a `VerseCreate`;
      `suffix` is always `None`. */
  datatype Verse = Verse(language: string, version: string, book: Option<string>,
                         prefix: Option<string>, content: string, aka: Option<string>)

  /** The verse a psalm line gives: prefixed `<stem>:<verse number>`. */
  function PsalmVerse(stem: string, lang: string, version: string, book: string,
                      aka: Option<string>, verseno: string, text: string): Verse
  {
    Verse(lang, version, Some(book), Some(stem + ":" + verseno), text, aka)
  }

  // The psalm line `([0-9]+):([0-9]+) (.*)`.

  /** A match at `p`: where the chapter number and the verse number end.
      The greedy digit runs can only end at the end of each run. */
  function VerseAt(s: string, p: nat): (r: Option<(nat, nat)>)
    requires p <= |s|
    ensures r.Some? ==> p < r.value.0 < r.value.1 < |s| && s[r.value.0] == ':' && s[r.value.1] == ' '
    ensures r.Some? ==> forall k :: p <= k < r.value.0 || r.value.0 < k < r.value.1 ==> IsDigit(s[k])
  {
    if p < |s| && IsDigit(s[p]) then
      var q := DigitsEnd(s, p);
      if q + 1 < |s| && s[q] == ':' && IsDigit(s[q + 1]) then
        var r := DigitsEnd(s, q + 1);
        if r < |s| && s[r] == ' ' then Some((q, r)) else None
      else None
    else None
  }

  /** The leftmost match at or after `i`. */
  function SearchVerse(s: string, i: nat): (r: Option<(nat, nat, nat)>)
    requires i <= |s|
    ensures r.Some? ==> i <= r.value.0 < |s| && VerseAt(s, r.value.0) == Some((r.value.1, r.value.2))
    ensures r.Some? ==> forall k :: i <= k < r.value.0 ==> VerseAt(s, k).None?
    ensures r.None? ==> forall k :: i <= k <= |s| ==> VerseAt(s, k).None?
    decreases |s| - i
  {
    match VerseAt(s, i)
    case Some((q, r)) => Some((i, q, r))
    case None => if i == |s| then None else SearchVerse(s, i + 1)
  }

  /** `re.search(r"([0-9]+):([0-9]+) (.*)", line).groups()`: the chapter,
      the verse number and the text up to the end of its line. */
  function VerseGroups(s: string): (r: Option<(string, string, string)>)
    ensures r.Some? ==> r.value.0 != [] && AllDigits(r.value.0) && r.value.1 != [] && AllDigits(r.value.1)
    ensures r.Some? ==> '\n' !in r.value.2
  {
    match SearchVerse(s, 0)
    case Some((p, q, r)) =>
      var e := ParserUtil.LineEnd(s, r + 1);
      var chapter, verseno, text := s[p..q], s[q + 1..r], s[r + 1..e];
      assert forall k :: 0 <= k < |chapter| ==> chapter[k] == s[p + k];
      assert forall k :: 0 <= k < |verseno| ==> verseno[k] == s[q + 1 + k];
      assert forall k :: 0 <= k < |text| ==> text[k] == s[r + 1 + k];
      Some((chapter, verseno, text))
    case None => None
  }

  // The heading line `\((.*?) *[\*:] (.*?) (.*?):(.*?)\)`; each lazy
  // group stops at the first position from which the rest matches, and
  // none of them crosses the end of the line.

  /** `(.*?)\)` from `i`: the first `)` on the line. */
  function CloseFrom(s: string, i: nat): (r: Option<nat>)
    requires i <= |s|
    ensures r.Some? ==> i <= r.value < |s| && s[r.value] == ')'
    decreases |s| - i
  {
    if i == |s| || s[i] == '\n' then None
    else if s[i] == ')' then Some(i)
    else CloseFrom(s, i + 1)
  }

  /** `(.*?):(.*?)\)` from `i`: the first `:` with a `)` after it on the line. */
  function ColonFrom(s: string, i: nat): (r: Option<nat>)
    requires i <= |s|
    ensures r.Some? ==> i <= r.value < |s| && s[r.value] == ':'
    decreases |s| - i
  {
    if i == |s| || s[i] == '\n' then None
    else if s[i] == ':' && CloseFrom(s, i + 1).Some? then Some(i)
    else ColonFrom(s, i + 1)
  }

  /** `(.*?) (.*?):(.*?)\)` from `i`: the first space the rest matches after. */
  function SpaceFrom(s: string, i: nat): (r: Option<nat>)
    requires i <= |s|
    ensures r.Some? ==> i <= r.value < |s| && s[r.value] == ' '
    decreases |s| - i
  {
    if i == |s| || s[i] == '\n' then None
    else if s[i] == ' ' && ColonFrom(s, i + 1).Some? then Some(i)
    else SpaceFrom(s, i + 1)
  }

  /** ` *[\*:] (.*?) …` at `a`: where the separator sits and where the
      book ends. Only the longest run of spaces can be followed by `*` or `:`. */
  function SeparatorAt(s: string, a: nat): (r: Option<(nat, nat)>)
    requires a <= |s|
    ensures r.Some? ==> a <= r.value.0 && r.value.0 + 2 <= r.value.1 < |s|
  {
    var m := RunEnd(s, a, IsBlank);
    if m + 1 < |s| && (s[m] == '*' || s[m] == ':') && s[m + 1] == ' ' then
      match SpaceFrom(s, m + 2)
      case Some(b) => Some((m, b))
      case None => None
    else None
  }

  /** The lazy first group from `a`: the first end with a separator after it. */
  function AkaEnd(s: string, a: nat): (r: Option<(nat, nat, nat)>)
    requires a <= |s|
    ensures r.Some? ==> a <= r.value.0 <= |s| && SeparatorAt(s, r.value.0) == Some((r.value.1, r.value.2))
    decreases |s| - a
  {
    match SeparatorAt(s, a)
    case Some((m, b)) => Some((a, m, b))
    case None => if a == |s| || s[a] == '\n' then None else AkaEnd(s, a + 1)
  }

  /** A match starting with the `(` at `p`. */
  function AkaAt(s: string, p: nat): (r: Option<(nat, nat, nat)>)
    requires p < |s|
    ensures r.Some? ==> p < r.value.0 <= |s| && SeparatorAt(s, r.value.0) == Some((r.value.1, r.value.2))
  {
    if s[p] == '(' then AkaEnd(s, p + 1) else None
  }

  /** The leftmost match at or after `i`. */
  function SearchAka(s: string, i: nat): (r: Option<(nat, nat, nat, nat)>)
    ensures r.Some? ==> i <= r.value.0 < |s| && AkaAt(s, r.value.0) == Some((r.value.1, r.value.2, r.value.3))
    decreases |s| - i
  {
    if i >= |s| then None
    else match AkaAt(s, i)
      case Some((a, m, b)) => Some((i, a, m, b))
      case None => SearchAka(s, i + 1)
  }

  /** The first two groups of `re.search(r"\((.*?) *[\*:] (.*?) (.*?):(.*?)\)", line)`:
      the other name of the psalm and the book it is taken from. */
  function AkaGroups(s: string): (r: Option<(string, string)>)
  {
    match SearchAka(s, 0)
    case Some((p, a, m, b)) => Some((s[p + 1..a], s[m + 2..b]))
    case None => None
  }

  // The parse.

  /** `parse_creed`: the first line names the text, each later line is a
      verse of it, newline included, with no book and no prefix. */
  function CreedVerses(lines: seq<string>, lang: string, version: string): (r: seq<Verse>)
    requires lines != []
    ensures |r| == |lines| - 1
    ensures forall k :: 0 <= k < |r| ==> r[k] == Verse(lang, version, None, None, lines[k + 1], Some(lines[0]))
  {
    seq(|lines| - 1, k requires 0 <= k < |lines| - 1 => Verse(lang, version, None, None, lines[k + 1], Some(lines[0])))
  }

  /** What a line of a psalm file is: a verse, a heading naming the psalm
      and its book, or neither. */
  datatype Kind = PsalmLine(verseno: string, text: string) | Heading(aka: string, book: string) | Other

  /** The verse regular expression is tried first, then the heading one. */
  function Classify(line: string): Kind {
    match VerseGroups(line)
    case Some((chapter, verseno, text)) => PsalmLine(verseno, text)
    case None =>
      match AkaGroups(line)
      case Some((aka, book)) => Heading(aka, book)
      case None => Other
  }

  /** The kind of every line of a file. */
  function Kinds(lines: seq<string>): (r: seq<Kind>)
    ensures |r| == |lines| && forall k :: 0 <= k < |lines| ==> r[k] == Classify(lines[k])
  {
    seq(|lines|, k requires 0 <= k < |lines| => Classify(lines[k]))
  }

  /** The `parse_file` loop over the kinds of the lines from `i` on, with
      the running `aka` and `book` and the verses so far; a line of
      neither kind abandons it for `creed`, what `parse_creed` gives. */
  function ParseFrom(kinds: seq<Kind>, creed: seq<Verse>, stem: string, lang: string, version: string,
                     i: nat, aka: Option<string>, book: string, verses: seq<Verse>): (r: seq<Verse>)
    requires i <= |kinds|
    decreases |kinds| - i
  {
    if i == |kinds| then verses
    else match kinds[i]
      case PsalmLine(verseno, text) =>
        ParseFrom(kinds, creed, stem, lang, version, i + 1, aka, book, verses + [PsalmVerse(stem, lang, version, book, aka, verseno, text)])
      case Heading(aka', book') => ParseFrom(kinds, creed, stem, lang, version, i + 1, Some(aka'), book', verses)
      case Other => creed
  }

  /** What `parse_file` gives for the lines of a file: no other name and
      the book `Psalm` until a heading says otherwise. */
  function FileVerses(lines: seq<string>, stem: string, lang: string, version: string): seq<Verse> {
    ParseFrom(Kinds(lines), if lines == [] then [] else CreedVerses(lines, lang, version),
              stem, lang, version, 0, None, "Psalm", [])
  }

  /** `parse_creed(fn, lang, version)` on the lines of the file; an empty
      file has no `lines[0]`. */
  method ParseCreed(lines: seq<string>, lang: string, version: string) returns (r: Outcome<seq<Verse>>)
    ensures lines == [] ==> r == Throw(IndexError)
    ensures lines != [] ==> r == Return(CreedVerses(lines, lang, version))
  {
    if lines == [] {
      return Throw(IndexError);
    }
    var verses: seq<Verse> := [];
    var aka := lines[0];
    for i := 1 to |lines|
      invariant verses == CreedVerses(lines, lang, version)[..i - 1]
    {
      verses := verses + [Verse(lang, version, None, None, lines[i], Some(aka))];
    }
    assert CreedVerses(lines, lang, version)[..|lines| - 1] == CreedVerses(lines, lang, version);
    return Return(verses);
  }

  /** `parse_file(fn, lang, version)` on the lines of the file `fn` with stem `stem`. */
  method ParseFile(lines: seq<string>, stem: string, lang: string, version: string) returns (verses: seq<Verse>)
    ensures verses == FileVerses(lines, stem, lang, version)
  {
    verses := [];
    var aka: Option<string> := None;
    var book := "Psalm";
    ghost var kinds := Kinds(lines);
    ghost var creed := if lines == [] then [] else CreedVerses(lines, lang, version);
    for i := 0 to |lines|
      invariant FileVerses(lines, stem, lang, version) == ParseFrom(kinds, creed, stem, lang, version, i, aka, book, verses)
    {
      var groups := VerseGroups(lines[i]);
      if groups.Some? {
        verses := verses + [PsalmVerse(stem, lang, version, book, aka, groups.value.1, groups.value.2)];
      } else {
        var heading := AkaGroups(lines[i]);
        if heading.Some? {
          aka, book := Some(heading.value.0), heading.value.1;
        } else {
          var creed := ParseCreed(lines, lang, version);
          return creed.value;
        }
      }
    }
  }

  // What the parse promises.

  /** `c:v text`, ending its line, gives the verse number `v` and the text;
      the chapter `c` is read and dropped. */
  lemma VerseLine(chapter: string, verseno: string, text: string, tail: string)
    requires chapter != [] && AllDigits(chapter) && verseno != [] && AllDigits(verseno)
    requires '\n' !in text && (tail == [] || tail[0] == '\n')
    ensures VerseGroups(chapter + ":" + verseno + " " + text + tail) == Some((chapter, verseno, text))
  {
    var s := chapter + ":" + verseno + " " + text + tail;
    var q := |chapter|;
    var r := q + 1 + |verseno|;
    var e := r + 1 + |text|;
    assert VerseAt(s, 0) == Some((q, r)) by {
      assert forall k :: 0 <= k < q ==> s[k] == chapter[k];
      assert forall k :: q < k < r ==> s[k] == verseno[k - q - 1];
      VerseAtStart(s, q, r);
    }
    assert ParserUtil.LineEnd(s, r + 1) == e by {
      assert forall k :: r < k < e ==> s[k] == text[k - r - 1];
      ParserUtil.LineEndAt(s, r + 1, e);
    }
    VerseGroupsAt(s, q, r, e);
    assert s[0..q] == chapter;
    assert s[q + 1..r] == verseno;
    assert s[r + 1..e] == text;
  }

  /** Two digit runs, split by `:` and closed by a space, match at the start. */
  lemma VerseAtStart(s: string, q: nat, r: nat)
    requires 0 < q < r < |s| && s[q] == ':' && s[r] == ' ' && q + 1 < r
    requires forall k :: 0 <= k < q || q < k < r ==> IsDigit(s[k])
    ensures VerseAt(s, 0) == Some((q, r))
  {
    DigitsEndAt(s, 0, q);
    DigitsEndAt(s, q + 1, r);
  }

  /** The groups of a line that matches from its first character. */
  lemma VerseGroupsAt(s: string, q: nat, r: nat, e: nat)
    requires VerseAt(s, 0) == Some((q, r)) && ParserUtil.LineEnd(s, r + 1) == e
    ensures VerseGroups(s) == Some((s[0..q], s[q + 1..r], s[r + 1..e]))
  {
  }

  /** Such a line is a psalm line. */
  lemma VerseLineKind(chapter: string, verseno: string, text: string, tail: string)
    requires chapter != [] && AllDigits(chapter) && verseno != [] && AllDigits(verseno)
    requires '\n' !in text && (tail == [] || tail[0] == '\n')
    ensures Classify(chapter + ":" + verseno + " " + text + tail) == PsalmLine(verseno, text)
  {
    VerseLine(chapter, verseno, text, tail);
  }

  /** A digit run from `i` that ends at `j`. */
  lemma {:induction false} DigitsEndAt(s: string, i: nat, j: nat)
    requires i <= j <= |s| && (j < |s| ==> !IsDigit(s[j]))
    requires forall k :: i <= k < j ==> IsDigit(s[k])
    ensures DigitsEnd(s, i) == j
    decreases j - i
  {
    if i < j {
      DigitsEndAt(s, i + 1, j);
    }
  }

  /** A heading `(aka * book c:v)` or `(aka : book c:v)` gives the other
      name and the book, when the name has no separator character and
      does not end in a space and the book has no space. */
  lemma HeadingLine(aka: string, sep: char, book: string, chapter: string, verses: string, tail: string)
    requires sep == '*' || sep == ':'
    requires '*' !in aka && ':' !in aka && '\n' !in aka && (aka == [] || aka[|aka| - 1] != ' ')
    requires ' ' !in book && '\n' !in book && '\n' !in chapter && '\n' !in verses
    ensures AkaGroups("(" + aka + [' ', sep, ' '] + book + " " + chapter + ":" + verses + ")" + tail) == Some((aka, book))
  {
    var head := "(" + aka + [' ', sep, ' '];
    var rest := book + " " + chapter + ":" + verses + ")" + tail;
    HeadingAt(head + rest, head, rest, aka, sep, book, chapter, verses, tail);
    assert head + rest == "(" + aka + [' ', sep, ' '] + book + " " + chapter + ":" + verses + ")" + tail;
  }

  /** The same, with the line given as its head up to the book and the rest. */
  lemma HeadingAt(s: string, head: string, rest: string,
                  aka: string, sep: char, book: string, chapter: string, verses: string, tail: string)
    requires sep == '*' || sep == ':'
    requires '*' !in aka && ':' !in aka && '\n' !in aka && (aka == [] || aka[|aka| - 1] != ' ')
    requires ' ' !in book && '\n' !in book && '\n' !in chapter && '\n' !in verses
    requires head == "(" + aka + [' ', sep, ' '] && rest == book + " " + chapter + ":" + verses + ")" + tail
    requires s == head + rest
    ensures AkaGroups(s) == Some((aka, book))
  {
    var i := |head|;
    var b := i + |book|;
    SplitAt(head, rest);
    assert SpaceFrom(s, i) == Some(b) by {
      HeadingTail(s, i, book, chapter, verses, tail);
    }
    assert SearchAka(s, 0) == Some((0, |aka| + 1, |aka| + 2, b)) by {
      HeadingName(s, aka, sep, b);
    }
    assert s[1..|aka| + 1] == aka by {
      assert s[1..|aka| + 1] == head[1..|aka| + 1];
    }
    assert s[i..b] == book by {
      assert s[i..b] == rest[..|book|];
    }
    AkaGroupsAt(s, |aka| + 1, |aka| + 2, b);
  }

  lemma SplitAt(head: string, rest: string)
    ensures (head + rest)[..|head|] == head && (head + rest)[|head|..] == rest
  {
  }

  /** The groups of a heading that starts the line. */
  lemma AkaGroupsAt(s: string, a: nat, m: nat, b: nat)
    requires SearchAka(s, 0) == Some((0, a, m, b))
    ensures AkaGroups(s) == Some((s[1..a], s[m + 2..b]))
  {
  }

  /** Such a line, unless it also holds a verse, is a heading. */
  lemma HeadingKind(aka: string, sep: char, book: string, chapter: string, verses: string, tail: string)
    requires sep == '*' || sep == ':'
    requires '*' !in aka && ':' !in aka && '\n' !in aka && (aka == [] || aka[|aka| - 1] != ' ')
    requires ' ' !in book && '\n' !in book && '\n' !in chapter && '\n' !in verses
    requires VerseGroups("(" + aka + [' ', sep, ' '] + book + " " + chapter + ":" + verses + ")" + tail).None?
    ensures Classify("(" + aka + [' ', sep, ' '] + book + " " + chapter + ":" + verses + ")" + tail) == Heading(aka, book)
  {
    HeadingLine(aka, sep, book, chapter, verses, tail);
  }

  /** After the separator, the book runs to the space before `c:v)`. */
  lemma HeadingTail(s: string, i: nat, book: string, chapter: string, verses: string, tail: string)
    requires i <= |s| && s[i..] == book + " " + chapter + ":" + verses + ")" + tail
    requires ' ' !in book && '\n' !in book && '\n' !in chapter && '\n' !in verses
    ensures SpaceFrom(s, i) == Some(i + |book|)
  {
    var r := s[i..];
    var b := i + |book|;
    var c := b + 1 + |chapter|;
    var v := c + 1 + |verses|;
    assert forall k :: i <= k < b ==> s[k] == r[k - i] == book[k - i];
    assert forall k :: b < k < c ==> s[k] == r[k - i] == chapter[k - b - 1];
    assert forall k :: c < k < v ==> s[k] == r[k - i] == verses[k - c - 1];
    assert s[b] == r[b - i] == ' ' && s[c] == r[c - i] == ':' && s[v] == r[v - i] == ')';
    BookFound(s, i, b, c, v);
  }

  /** The lazy name group ends before the spaced separator. */
  lemma HeadingName(s: string, aka: string, sep: char, b: nat)
    requires sep == '*' || sep == ':'
    requires '*' !in aka && ':' !in aka && '\n' !in aka && (aka == [] || aka[|aka| - 1] != ' ')
    requires |aka| + 4 <= |s| && s[..|aka| + 4] == "(" + aka + [' ', sep, ' ']
    requires SpaceFrom(s, |aka| + 4) == Some(b)
    ensures SearchAka(s, 0) == Some((0, |aka| + 1, |aka| + 2, b))
  {
    var a := |aka| + 1;
    var head := s[..|aka| + 4];
    assert forall k :: 1 <= k < a ==> s[k] == head[k] == aka[k - 1];
    assert s[0] == head[0] == '(';
    assert s[a] == head[a] == ' ' && s[a + 1] == head[a + 1] == sep && s[a + 2] == head[a + 2] == ' ';
    NameRun(s, a, b);
  }

  /** `(`, a name with no separator, newline or final space, then ` * ` or ` : `. */
  lemma NameRun(s: string, a: nat, b: nat)
    requires 1 <= a && a + 3 <= |s| && s[0] == '(' && s[a] == ' ' && s[a + 2] == ' '
    requires s[a + 1] == '*' || s[a + 1] == ':'
    requires forall k :: 1 <= k < a ==> s[k] != '*' && s[k] != ':' && s[k] != '\n'
    requires a > 1 ==> s[a - 1] != ' '
    requires SpaceFrom(s, a + 3) == Some(b)
    ensures SearchAka(s, 0) == Some((0, a, a + 1, b))
  {
    assert RunEnd(s, a, IsBlank) == a + 1 by {
      assert RunEnd(s, a + 1, IsBlank) == a + 1;
    }
    assert SeparatorAt(s, a) == Some((a + 1, b));
    forall k | 1 <= k < a
      ensures SeparatorAt(s, k).None?
    {
      var m := RunEnd(s, k, IsBlank);
      assert m < a;
    }
    AkaEndSkip(s, 1, a);
    assert AkaAt(s, 0) == Some((a, a + 1, b));
  }

  /** The book group ends at the space before `c:v)`. */
  lemma BookFound(s: string, i: nat, b: nat, c: nat, v: nat)
    requires i <= b < c < v < |s| && s[b] == ' ' && s[c] == ':' && s[v] == ')'
    requires forall k :: i <= k < b ==> s[k] != ' ' && s[k] != '\n'
    requires forall k :: b < k < v ==> s[k] != '\n'
    ensures SpaceFrom(s, i) == Some(b)
  {
    CloseFound(s, c + 1, v);
    ColonFound(s, b + 1, c);
    SpaceFromSkip(s, i, b);
  }

  /** Inside the name no run of spaces reaches a separator. */
  lemma NoSeparatorInName(s: string, aka: string, k: nat)
    requires '*' !in aka && ':' !in aka && aka != [] && aka[|aka| - 1] != ' '
    requires |aka| + 1 <= |s| && s[1..|aka| + 1] == aka
    requires 1 <= k < |aka| + 1
    ensures SeparatorAt(s, k).None?
  {
    var m := RunEnd(s, k, IsBlank);
    assert s[|aka|] == aka[|aka| - 1];
    assert m <= |aka|;
    assert s[m] == aka[m - 1];
  }

  /** The lazy first group skips ends with no separator after them. */
  lemma {:induction false} AkaEndSkip(s: string, a: nat, e: nat)
    requires a <= e <= |s|
    requires forall k :: a <= k < e ==> SeparatorAt(s, k).None? && s[k] != '\n'
    ensures AkaEnd(s, a) == AkaEnd(s, e)
    decreases e - a
  {
    if a < e {
      AkaEndSkip(s, a + 1, e);
    }
  }

  /** The book group skips characters that are not spaces. */
  lemma {:induction false} SpaceFromSkip(s: string, i: nat, e: nat)
    requires i <= e <= |s|
    requires forall k :: i <= k < e ==> s[k] != ' ' && s[k] != '\n'
    ensures SpaceFrom(s, i) == SpaceFrom(s, e)
    decreases e - i
  {
    if i < e {
      SpaceFromSkip(s, i + 1, e);
    }
  }

  /** A `:` with a `)` after it on its line is found. */
  lemma {:induction false} ColonFound(s: string, i: nat, c: nat)
    requires i <= c < |s| && s[c] == ':' && CloseFrom(s, c + 1).Some?
    requires forall k :: i <= k < c ==> s[k] != '\n'
    ensures ColonFrom(s, i).Some?
    decreases c - i
  {
    if i < c && !(s[i] == ':' && CloseFrom(s, i + 1).Some?) {
      ColonFound(s, i + 1, c);
    }
  }

  /** A `)` on the line is found. */
  lemma {:induction false} CloseFound(s: string, i: nat, v: nat)
    requires i <= v < |s| && s[v] == ')'
    requires forall k :: i <= k < v ==> s[k] != '\n'
    ensures CloseFrom(s, i).Some?
    decreases v - i
  {
    if i < v && s[i] != ')' {
      CloseFound(s, i + 1, v);
    }
  }

  /** The verse a psalm line gives. */
  function KindVerse(kind: Kind, stem: string, lang: string, version: string,
                     aka: Option<string>, book: string): Verse
    requires kind.PsalmLine?
  {
    PsalmVerse(stem, lang, version, book, aka, kind.verseno, kind.text)
  }

  /** Every line from `i` on is a psalm line. */
  predicate PsalmFrom(kinds: seq<Kind>, i: nat) {
    forall k :: i <= k < |kinds| ==> kinds[k].PsalmLine?
  }

  /** The verses of psalm lines from `i` on, one per line, in file order. */
  function PsalmVerses(kinds: seq<Kind>, stem: string, lang: string, version: string,
                       i: nat, aka: Option<string>, book: string): (r: seq<Verse>)
    requires i <= |kinds| && PsalmFrom(kinds, i)
    ensures |r| == |kinds| - i
    decreases |kinds| - i
  {
    if i == |kinds| then []
    else [KindVerse(kinds[i], stem, lang, version, aka, book)] + PsalmVerses(kinds, stem, lang, version, i + 1, aka, book)
  }

  /** The verse of each psalm line sits at its line's place. */
  lemma {:induction false} PsalmVersesAt(kinds: seq<Kind>, stem: string, lang: string, version: string,
                                         i: nat, aka: Option<string>, book: string, k: nat)
    requires i <= k < |kinds| && PsalmFrom(kinds, i)
    ensures PsalmVerses(kinds, stem, lang, version, i, aka, book)[k - i] == KindVerse(kinds[k], stem, lang, version, aka, book)
    decreases k - i
  {
    if i < k {
      PsalmVersesAt(kinds, stem, lang, version, i + 1, aka, book, k);
    }
  }

  /** Psalm lines from `i` on each add their verse, in order. */
  lemma {:induction false} PsalmLines(kinds: seq<Kind>, creed: seq<Verse>, stem: string, lang: string, version: string,
                                      i: nat, aka: Option<string>, book: string, verses: seq<Verse>)
    requires i <= |kinds| && PsalmFrom(kinds, i)
    ensures ParseFrom(kinds, creed, stem, lang, version, i, aka, book, verses)
      == verses + PsalmVerses(kinds, stem, lang, version, i, aka, book)
    decreases |kinds| - i
  {
    if i < |kinds| {
      var v := KindVerse(kinds[i], stem, lang, version, aka, book);
      var later := PsalmVerses(kinds, stem, lang, version, i + 1, aka, book);
      PsalmLines(kinds, creed, stem, lang, version, i + 1, aka, book, verses + [v]);
      assert verses + [v] + later == verses + ([v] + later);
    }
  }

  /** A file of psalm lines gives one verse per line, in file order, with
      no other name and the book `Psalm`. */
  lemma PsalmFile(lines: seq<string>, stem: string, lang: string, version: string, k: nat)
    requires PsalmFrom(Kinds(lines), 0) && k < |lines|
    ensures |FileVerses(lines, stem, lang, version)| == |lines|
    ensures FileVerses(lines, stem, lang, version)[k]
      == PsalmVerse(stem, lang, version, "Psalm", None, Classify(lines[k]).verseno, Classify(lines[k]).text)
  {
    var creed := if lines == [] then [] else CreedVerses(lines, lang, version);
    PsalmLines(Kinds(lines), creed, stem, lang, version, 0, None, "Psalm", []);
    PsalmVersesAt(Kinds(lines), stem, lang, version, 0, None, "Psalm", k);
  }

  /** A line that is neither a verse nor a heading discards the verses
      read so far. */
  lemma {:induction false} Abandoned(kinds: seq<Kind>, creed: seq<Verse>, stem: string, lang: string, version: string,
                                     i: nat, aka: Option<string>, book: string, verses: seq<Verse>, j: nat)
    requires i <= j < |kinds| && kinds[j].Other?
    ensures ParseFrom(kinds, creed, stem, lang, version, i, aka, book, verses) == creed
    decreases j - i
  {
    if i < j {
      match kinds[i]
      case PsalmLine(n, t) =>
        Abandoned(kinds, creed, stem, lang, version, i + 1, aka, book, verses + [PsalmVerse(stem, lang, version, book, aka, n, t)], j);
      case Heading(a, b) => Abandoned(kinds, creed, stem, lang, version, i + 1, Some(a), b, verses, j);
      case Other =>
    }
  }

  /** A file with such a line anywhere is read as a creed. */
  lemma CreedFile(lines: seq<string>, stem: string, lang: string, version: string, j: nat)
    requires j < |lines| && Classify(lines[j]).Other?
    ensures FileVerses(lines, stem, lang, version) == CreedVerses(lines, lang, version)
  {
    Abandoned(Kinds(lines), CreedVerses(lines, lang, version), stem, lang, version, 0, None, "Psalm", [], j);
  }

  /** A heading emits nothing: the verse after it carries its name and book. */
  lemma HeadingThenVerse(kinds: seq<Kind>, creed: seq<Verse>, stem: string, lang: string, version: string,
                         i: nat, aka: Option<string>, book: string, verses: seq<Verse>)
    requires i + 1 < |kinds| && kinds[i].Heading? && kinds[i + 1].PsalmLine?
    ensures ParseFrom(kinds, creed, stem, lang, version, i, aka, book, verses)
      == ParseFrom(kinds, creed, stem, lang, version, i + 2, Some(kinds[i].aka), kinds[i].book,
           verses + [PsalmVerse(stem, lang, version, kinds[i].book, Some(kinds[i].aka), kinds[i + 1].verseno, kinds[i + 1].text)])
  {
  }
}
