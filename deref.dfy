/** `deref(linkstr, originf)`: a divinumofficium link `@file:part` names
    the file to read and the section to take from it. */
module Deref {
  import opened Text
  import opened Py
  import ParserUtil

  /** The file a link points at: the file it was read from, or
      `originf.parent.parent / "<link>.txt"`. */
  datatype Target = Origin | Relative(link: string)

  /** A match of `@(.*?):` at `p`: lazy, so it ends at the first `:` on the line. */
  function LinkAt(s: string, p: nat): (r: Option<nat>)
    requires p < |s|
    ensures r.Some? ==> s[p] == '@' && p < r.value < ParserUtil.LineEnd(s, p + 1) && s[r.value] == ':'
    ensures r.Some? ==> forall k :: p < k < r.value ==> s[k] != ':'
  {
    if s[p] != '@' then None
    else match FindChar(s, ':', p + 1)
      case Some(c) => if c < ParserUtil.LineEnd(s, p + 1) then Some(c) else None
      case None => None
  }

  /** The leftmost match of `@(.*?):` at or after `i`. */
  function SearchLink(s: string, i: nat): (r: Option<(nat, nat)>)
    ensures r.Some? ==> i <= r.value.0 < |s| && LinkAt(s, r.value.0) == Some(r.value.1)
    ensures r.Some? ==> forall k :: i <= k < r.value.0 ==> LinkAt(s, k).None?
    ensures r.None? ==> forall k :: i <= k < |s| ==> LinkAt(s, k).None?
    decreases |s| - i
  {
    if i >= |s| then None
    else match LinkAt(s, i)
      case Some(c) => Some((i, c))
      case None => SearchLink(s, i + 1)
  }

  /** `re.search(r"@(.*?):(.*):*", linkstr).groups()`: the file and the
      rest of the line; the trailing `:*` matches nothing after the greedy group. */
  function LinkGroups(s: string): (r: Option<(string, string)>)
    ensures r.Some? ==> ':' !in r.value.0 && '\n' !in r.value.0 && '\n' !in r.value.1
  {
    match SearchLink(s, 0)
    case Some((p, c)) =>
      var e := ParserUtil.LineEnd(s, c + 1);
      var link, part := s[p + 1..c], s[c + 1..e];
      assert forall k :: 0 <= k < |link| ==> link[k] == s[p + 1 + k];
      assert forall k :: 0 <= k < |part| ==> part[k] == s[c + 1 + k];
      Some((link, part))
    case None => None
  }

  /** `re.search(r"(.*?):s/.*", part).group(1)` on a one-line part: what
      precedes the first `:s/`; `None` when there is none. */
  function BeforeSubstitution(part: string): (r: Option<string>)
    ensures r.Some? ==> StartsWith(part, r.value) && OccursAt(part, ":s/", |r.value|)
    ensures r.None? <==> !Contains(part, ":s/")
  {
    match FindFrom(part, ":s/", 0)
    case Some(k) => Some(part[..k])
    case None => None
  }

  /** A `:` followed by a digit starts a line range at `k`. */
  predicate RangeAt(part: string, k: nat) {
    k + 1 < |part| && part[k] == ':' && IsDigit(part[k + 1])
  }

  /** The last start of a line range below `j`. */
  function LastRange(part: string, j: nat): (r: Option<nat>)
    requires j <= |part|
    ensures r.Some? ==> r.value < j && RangeAt(part, r.value)
    ensures r.Some? ==> forall k :: r.value < k < j ==> !RangeAt(part, k)
    ensures r.None? ==> forall k :: 0 <= k < j ==> !RangeAt(part, k)
    decreases j
  {
    if j == 0 then None
    else if RangeAt(part, j - 1) then Some(j - 1)
    else LastRange(part, j - 1)
  }

  /** `re.search(r"(.*):[0-9]+-*[0-9]*", part)` on a one-line part: the
      greedy group ends at the last range, which is cut. */
  function WithoutRange(part: string): (r: string)
    ensures |r| <= |part| && StartsWith(part, r)
  {
    match LastRange(part, |part|)
    case Some(k) => part[..k]
    case None => part
  }

  /** `re.sub("(.*):$", r"\1", part)`: one trailing `:` is dropped. */
  function WithoutColon(part: string): (r: string)
    ensures EndsWith(part, ":") ==> r == part[..|part| - 1]
    ensures !EndsWith(part, ":") ==> r == part
  {
    if part != [] && part[|part| - 1] == ':' then part[..|part| - 1] else part
  }

  /** The target of a link: a link with a `/` names a file two levels up. */
  function TargetOf(link: string): (t: Target)
    ensures t == Origin <==> '/' !in link
    ensures t.Relative? ==> t.link == link
  {
    if '/' in link then Relative(link) else Origin
  }

  /** The `except AttributeError` branch: `linkstr.replace("@", "").strip()`, no part. */
  function Unlinked(linkstr: string): (r: (Target, Option<string>))
    ensures r.1.None?
  {
    (TargetOf(Strip(Replace(linkstr, "@", ""))), None)
  }

  /** `deref(linkstr, originf)`. */
  function Deref(linkstr: string): (r: (Target, Option<string>))
    ensures r.1.None? <==> (LinkGroups(linkstr).None? ||
      (Contains(LinkGroups(linkstr).value.1, "s/") && !Contains(LinkGroups(linkstr).value.1, ":s/")))
    ensures LinkGroups(linkstr).Some? && r.1.Some? ==> r.0 == TargetOf(LinkGroups(linkstr).value.0)
    ensures r.1.Some? ==> StartsWith(LinkGroups(linkstr).value.1, r.1.value)
  {
    match LinkGroups(linkstr)
    case None => Unlinked(linkstr)
    case Some((link, part)) =>
      if Contains(part, "s/") then
        match BeforeSubstitution(part)
        case None => Unlinked(link)
        case Some(cut) =>
          var kept := WithoutColon(WithoutRange(cut));
          assert StartsWith(part, kept) by {
            assert part[..|cut|] == cut && cut[..|WithoutRange(cut)|] == WithoutRange(cut);
            assert WithoutRange(cut)[..|kept|] == kept;
          }
          (TargetOf(link), Some(kept))
      else
        var kept := WithoutColon(WithoutRange(part));
        assert StartsWith(part, kept) by {
          assert WithoutRange(part)[..|kept|] == kept;
        }
        (TargetOf(link), Some(kept))
  }

  /** `@file:part`, alone on its line or ending it, gives the file and the
      part as written when the part has no colon and no substitution. */
  lemma PlainLink(file: string, part: string, tail: string)
    requires ':' !in file && '\n' !in file && ':' !in part && '\n' !in part && !Contains(part, "s/")
    requires tail == [] || tail[0] == '\n'
    ensures Deref("@" + file + ":" + part + tail) == (TargetOf(file), Some(part))
  {
    var s := "@" + file + ":" + part + tail;
    assert LinkGroups(s) == Some((file, part)) by {
      LinkSplit(s, file, part, tail);
    }
    assert LastRange(part, |part|).None?;
  }

  /** How `@file:part` followed by the end of its line is split. */
  lemma LinkSplit(s: string, file: string, part: string, tail: string)
    requires ':' !in file && '\n' !in file && '\n' !in part
    requires tail == [] || tail[0] == '\n'
    requires s == "@" + file + ":" + part + tail
    ensures LinkGroups(s) == Some((file, part))
  {
    var c := |file| + 1;
    var e := c + 1 + |part|;
    assert forall k :: 1 <= k < c ==> s[k] == file[k - 1];
    assert forall k :: c < k < e ==> s[k] == part[k - c - 1];
    FindCharAt(s, ':', 1, c);
    assert LinkAt(s, 0) == Some(c);
    ParserUtil.LineEndAt(s, c + 1, e);
    assert s[1..c] == file && s[c + 1..e] == part;
  }

  /** A line range `:N` or `:N-M` after the part is cut. */
  lemma RangeCut(part: string, range: string)
    requires range != [] && IsDigit(range[0]) && ':' !in range
    ensures WithoutRange(part + ":" + range) == part
  {
    var s := part + ":" + range;
    assert RangeAt(s, |part|);
    assert forall k :: |part| < k < |s| ==> s[k] == range[k - |part| - 1];
    assert s[..|part|] == part;
  }

  /** A substitution `:s/…` after the part is cut. */
  lemma SubstitutionCut(part: string, rest: string)
    requires ':' !in part
    ensures BeforeSubstitution(part + ":s/" + rest) == Some(part)
  {
    var s := part + ":s/" + rest;
    assert OccursAt(s, ":s/", |part|) by {
      assert s[|part|..|part| + 3] == ":s/";
    }
    forall k | 0 <= k < |part| ensures !OccursAt(s, ":s/", k) {
      assert s[k] == part[k];
    }
    assert s[..|part|] == part;
  }

  /** With no `@…:` on any line there is no part, and the link is the
      text without its `@`s, stripped. */
  lemma NoLink(linkstr: string)
    requires LinkGroups(linkstr).None?
    ensures Deref(linkstr) == (TargetOf(Strip(Replace(linkstr, "@", ""))), None)
    ensures '@' !in Strip(Replace(linkstr, "@", ""))
  {
    RemoveCharGone(linkstr, '@');
    var t := Replace(linkstr, "@", "");
    var a := SkipSpaces(t, 0);
    var b := TrimEnd(t, a, |t|);
    assert forall k :: 0 <= k < b - a ==> Strip(t)[k] == t[a + k];
  }
}
