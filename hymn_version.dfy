/** `guess_version(thing)` of the hymn parsers (the copies in `H2obj` and
    `hymn` are the same): the version a file belongs to, read from the
    end of its stem or of its directory's name. */
module HymnVersion {
  import opened Text

  /** What `guess_version` is given: a bare string, or a path, of which
      only the stem and the parent directory's stem are read. */
  datatype Thing = Str(s: string) | FilePath(stem: string, parentStem: string)

  const PiusV: string := "pius v"

  /** The `stems` table: suffixes in the order they are tried, with
      the version each one means. */
  const Stems: seq<(string, string)> := [
    ("1960", "pius v"), ("OP", "dominican"), ("Trid", "tridentine"), ("M", "monastic"), ("r", "novus ordo")]

  /** The first suffix from `i` on that `word` ends with. */
  function FirstSuffix(word: string, i: nat): (r: Option<nat>)
    ensures r.Some? ==> i <= r.value < |Stems| && EndsWith(word, Stems[r.value].0)
    ensures r.Some? ==> forall k :: i <= k < r.value ==> !EndsWith(word, Stems[k].0)
    ensures r.None? ==> forall k :: i <= k < |Stems| ==> !EndsWith(word, Stems[k].0)
    decreases |Stems| - i
  {
    if i >= |Stems| then None
    else if EndsWith(word, Stems[i].0) then Some(i)
    else FirstSuffix(word, i + 1)
  }

  /** The version of the first suffix `word` ends with. */
  function Suffixed(word: string): (r: Option<string>)
    ensures r.Some? <==> exists k :: 0 <= k < |Stems| && EndsWith(word, Stems[k].0)
    ensures r.Some? ==> exists k :: 0 <= k < |Stems| && r.value == Stems[k].1
  {
    match FirstSuffix(word, 0)
    case Some(k) => Some(Stems[k].1)
    case None => None
  }

  /** `guess_version(thing)`: the version and whether it was found. */
  function GuessVersion(thing: Thing): (r: (string, bool))
    ensures !r.1 ==> r.0 == PiusV
    ensures r.1 ==> exists k :: 0 <= k < |Stems| && r.0 == Stems[k].1
    ensures thing.Str? ==> (r.1 <==> Suffixed(Split(thing.s, ' ')[0]).Some?)
    ensures thing.FilePath? ==> (r.1 <==> Suffixed(thing.stem).Some? || Suffixed(thing.parentStem).Some?)
  {
    match thing
    case Str(s) =>
      (match Suffixed(Split(s, ' ')[0])
       case Some(v) => (v, true)
       case None => (PiusV, false))
    case FilePath(stem, parent) =>
      (match Suffixed(stem)
       case Some(v) => (v, true)
       case None =>
         match Suffixed(parent)
         case Some(v) => (v, true)
         case None => (PiusV, false))
  }

  /** A string is read only up to its first space. */
  lemma FirstWordOnly(word: string, rest: string)
    requires ' ' !in word
    ensures GuessVersion(Str(word + " " + rest)) == GuessVersion(Str(word))
  {
    var s := word + " " + rest;
    FindCharAt(s, ' ', 0, |word|);
    assert s[..|word|] == word;
    assert FindChar(word, ' ', 0).None?;
  }

  /** The stem is tried before the directory: a suffixed stem decides. */
  lemma StemFirst(stem: string, parent: string)
    requires Suffixed(stem).Some?
    ensures GuessVersion(FilePath(stem, parent)) == (Suffixed(stem).value, true)
  {
  }

  /** A directory whose name ends with `M` marks the monastic hymns of an
      unmarked file. */
  lemma MonasticDirectory(stem: string, parent: string)
    requires Suffixed(stem).None? && EndsWith(parent, "M")
    ensures GuessVersion(FilePath(stem, parent)) == ("monastic", true)
  {
    assert parent[|parent| - 1..][0] == parent[|parent| - 1];
    LastDiffers(parent, "1960");
    LastDiffers(parent, "OP");
    LastDiffers(parent, "Trid");
    assert FirstSuffix(parent, 0) == Some(3);
  }

  /** A word ends with no suffix whose last character it does not end with. */
  lemma LastDiffers(s: string, p: string)
    requires s != [] && p != [] && s[|s| - 1] == 'M' && p[|p| - 1] != 'M'
    ensures !EndsWith(s, p)
  {
    if |p| <= |s| {
      assert s[|s| - |p|..][|p| - 1] == s[|s| - 1];
    }
  }

  /** Suffixes are tried in order: a 1960 stem is Pius V even when it
      could be read otherwise. */
  lemma Year1960(word: string)
    requires EndsWith(word, "1960")
    ensures GuessVersion(Str(word)) == ("pius v", true) || ' ' in word
  {
    if ' ' !in word {
      assert FindChar(word, ' ', 0).None?;
      assert Split(word, ' ')[0] == word;
    }
  }
}
