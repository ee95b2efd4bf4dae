/**
 * The filename sanitiser `cleanhtml`: it turns the HTML description of a docket
 * entry into a name that can be used as a file name. It is a chain of five
 * rewrites followed by a cut to 240 characters:
 *   1. remove every `<...>` tag (regex `<.*?>`),
 *   2. strip surrounding whitespace (`str.strip()`),
 *   3. turn each space into an underscore,
 *   4. drop every character outside `-`, `.` and the word characters `\w`,
 *   5. drop every dot,
 * and finally keep at most the first 240 characters.
 *
 * Python's Unicode class `\w` depends on the Unicode database, so it is a
 * parameter `isWord` here; `IsWordClass` lists the facts about it that the
 * lemmas rely on.
 */
module Sanitizer {
  import opened Wrappers

  /** The longest name `cleanhtml` returns: a margin under the NTFS limit. */
  const MaxNameLength: nat := 240

  /** Python's `str.isspace()`: exactly the characters `str.strip()` removes. */
  predicate IsSpace(c: char) {
    || ('\t' <= c <= '\r')
    || ('\U{1C}' <= c <= ' ')
    || c == '\U{85}' || c == '\U{A0}' || c == '\U{1680}'
    || ('\U{2000}' <= c <= '\U{200A}')
    || c == '\U{2028}' || c == '\U{2029}' || c == '\U{202F}' || c == '\U{205F}' || c == '\U{3000}'
  }

  /**
   * What the model relies on about `\w`: the underscore is a word character;
   * the dot, the hyphen, the angle brackets and every whitespace character
   * are not.
   */
  ghost predicate IsWordClass(isWord: char -> bool) {
    && isWord('_')
    && !isWord('.') && !isWord('-') && !isWord('<') && !isWord('>')
    && (forall c :: IsSpace(c) ==> !isWord(c))
  }

  /** The characters the whitelist `[^-\w.]` lets through. */
  predicate IsFilenameChar(c: char, isWord: char -> bool) {
    c == '-' || c == '.' || isWord(c)
  }

  /** Every character of `s` passes the whitelist. */
  predicate AllFilenameChars(s: string, isWord: char -> bool) {
    forall i :: 0 <= i < |s| ==> IsFilenameChar(s[i], isWord)
  }

  /** Every character of `s` is a hyphen or a word character: the alphabet of the names. */
  predicate IsCleanName(s: string, isWord: char -> bool) {
    forall i :: 0 <= i < |s| ==> s[i] == '-' || isWord(s[i])
  }

  /** No `>` occurs in `t` before its first newline. */
  predicate NeverCloses(t: string) {
    t == [] || t[0] == '\n' || (t[0] != '>' && NeverCloses(t[1..]))
  }

  /**
   * Where the tag opened just before position `i` closes: the first `>` at or
   * after `i`, provided no newline comes before it (`.` does not match a
   * newline, and `.*?` takes the shortest match).
   */
  function TagEnd(s: string, i: nat): (r: Option<nat>)
    requires i <= |s|
    ensures r.Some? ==> i <= r.value < |s| && s[r.value] == '>'
    ensures r.Some? ==> '>' !in s[i..r.value] && '\n' !in s[i..r.value]
    ensures r.None? <==> NeverCloses(s[i..])
    decreases |s| - i
  {
    if i == |s| || s[i] == '\n' then None
    else if s[i] == '>' then Some(i)
    else
      var r := TagEnd(s, i + 1);
      assert s[i..][1..] == s[i + 1..];
      assert r.Some? ==> s[i..r.value] == [s[i]] + s[i + 1..r.value];
      r
  }

  /** `re.sub('<.*?>', '', s)`: removes each tag, scanning from the left. */
  function StripTags(s: string): (r: string)
    ensures |r| <= |s|
    decreases |s|
  {
    if s == [] then []
    else if s[0] == '<' && TagEnd(s, 1).Some? then StripTags(s[TagEnd(s, 1).value + 1..])
    else [s[0]] + StripTags(s[1..])
  }

  /** Removes the leading whitespace. */
  function TrimStart(s: string): (r: string)
    ensures |r| <= |s| && r == s[|s| - |r|..]
    ensures forall k :: 0 <= k < |s| - |r| ==> IsSpace(s[k])
    ensures r != [] ==> !IsSpace(r[0])
  {
    if s != [] && IsSpace(s[0]) then TrimStart(s[1..]) else s
  }

  /** Removes the trailing whitespace. */
  function TrimEnd(s: string): (r: string)
    ensures |r| <= |s| && r == s[..|r|]
    ensures forall k :: |r| <= k < |s| ==> IsSpace(s[k])
    ensures r != [] ==> !IsSpace(r[|r| - 1])
  {
    if s != [] && IsSpace(s[|s| - 1]) then TrimEnd(s[..|s| - 1]) else s
  }

  /**
   * `str.strip()`: the result neither starts nor ends with whitespace, and a
   * text that already does not is returned unchanged.
   */
  function Strip(s: string): (r: string)
    ensures |r| <= |s|
    ensures r != [] ==> !IsSpace(r[0]) && !IsSpace(r[|r| - 1])
    ensures s == [] || (!IsSpace(s[0]) && !IsSpace(s[|s| - 1])) ==> r == s
  {
    TrimEnd(TrimStart(s))
  }

  /** `s.replace(' ', '_')`: one underscore per space, nothing else touched. */
  function SpacesToUnderscores(s: string): (r: string)
    ensures |r| == |s|
    ensures forall i :: 0 <= i < |s| ==> r[i] == if s[i] == ' ' then '_' else s[i]
  {
    if s == [] then []
    else [if s[0] == ' ' then '_' else s[0]] + SpacesToUnderscores(s[1..])
  }

  /**
   * `re.sub(r'(?u)[^-\w.]', '', s)`: what is left passes the whitelist, and a
   * text that passes is unchanged.
   */
  function KeepFilenameChars(s: string, isWord: char -> bool): (r: string)
    ensures |r| <= |s|
    ensures AllFilenameChars(r, isWord)
    ensures AllFilenameChars(s, isWord) ==> r == s
  {
    if s == [] then []
    else (if IsFilenameChar(s[0], isWord) then [s[0]] else []) + KeepFilenameChars(s[1..], isWord)
  }

  /** `s.replace(".", "")`: removes every dot and only the dots. */
  function RemoveDots(s: string): (r: string)
    ensures |r| <= |s|
    ensures '.' !in r
    ensures forall i :: 0 <= i < |r| ==> r[i] in s
    ensures '.' !in s ==> r == s
  {
    if s == [] then []
    else
      (if s[0] == '.' then [] else [s[0]]) + RemoveDots(s[1..])
  }

  /** `s[0:240]`. */
  function Truncate(s: string): (r: string)
    ensures |r| <= MaxNameLength && |r| <= |s|
    ensures r == s[..|r|]
    ensures |s| <= MaxNameLength ==> r == s
    ensures |s| > MaxNameLength ==> |r| == MaxNameLength
  {
    if |s| <= MaxNameLength then s else s[..MaxNameLength]
  }

  /**
   * `cleanhtml(raw_html)`: never longer than 240 characters, and made only of
   * hyphens and word characters (so no dot survives).
   */
  function CleanHtml(rawHtml: string, isWord: char -> bool): (r: string)
    ensures |r| <= MaxNameLength
    ensures IsCleanName(r, isWord)
    ensures '.' !in r
  {
    var kept := KeepFilenameChars(SpacesToUnderscores(Strip(StripTags(rawHtml))), isWord);
    var undotted := RemoveDots(kept);
    var r := Truncate(undotted);
    assert forall i :: 0 <= i < |r| ==> r[i] == undotted[i];
    assert '.' in r ==> '.' in undotted;
    r
  }

  lemma AppendAssociative(x: string, y: string, z: string)
    ensures x + (y + z) == (x + y) + z
  {
  }

  /** The whitelist works character by character: it filters the parts of a text separately. */
  lemma {:induction false} KeepFilenameCharsAppend(a: string, b: string, isWord: char -> bool)
    ensures KeepFilenameChars(a + b, isWord) == KeepFilenameChars(a, isWord) + KeepFilenameChars(b, isWord)
    decreases |a|
  {
    if a == [] {
      assert a + b == b;
    } else {
      var head := if IsFilenameChar(a[0], isWord) then [a[0]] else [];
      assert (a + b)[0] == a[0];
      assert (a + b)[1..] == a[1..] + b;
      assert KeepFilenameChars(a + b, isWord) == head + KeepFilenameChars(a[1..] + b, isWord);
      KeepFilenameCharsAppend(a[1..], b, isWord);
      assert KeepFilenameChars(a, isWord) == head + KeepFilenameChars(a[1..], isWord);
      AppendAssociative(head, KeepFilenameChars(a[1..], isWord), KeepFilenameChars(b, isWord));
    }
  }

  /** A single character is kept exactly when it passes the whitelist. */
  lemma KeepFilenameCharsOne(c: char, isWord: char -> bool)
    ensures KeepFilenameChars([c], isWord) == if IsFilenameChar(c, isWord) then [c] else []
  {
    assert [c][1..] == [];
  }

  /** Dot removal works character by character: it treats the parts of a text separately. */
  lemma {:induction false} RemoveDotsAppend(a: string, b: string)
    ensures RemoveDots(a + b) == RemoveDots(a) + RemoveDots(b)
    decreases |a|
  {
    if a == [] {
      assert a + b == b;
    } else {
      var head := if a[0] == '.' then [] else [a[0]];
      assert (a + b)[0] == a[0];
      assert (a + b)[1..] == a[1..] + b;
      assert RemoveDots(a + b) == head + RemoveDots(a[1..] + b);
      RemoveDotsAppend(a[1..], b);
      assert RemoveDots(a) == head + RemoveDots(a[1..]);
      AppendAssociative(head, RemoveDots(a[1..]), RemoveDots(b));
    }
  }

  /** A single character is kept exactly when it is not a dot. */
  lemma RemoveDotsOne(c: char)
    ensures RemoveDots([c]) == if c == '.' then [] else [c]
  {
    assert [c][1..] == [];
  }

  /** A text without `<` has no tag to remove. */
  lemma {:induction false} StripTagsNoTag(s: string)
    requires '<' !in s
    ensures StripTags(s) == s
    decreases |s|
  {
    if s != [] {
      assert '<' !in s[1..];
      StripTagsNoTag(s[1..]);
      assert s == [s[0]] + s[1..];
    }
  }

  /**
   * A tag is removed up to its first `>`, provided it does not span a line;
   * the text after it is then scanned on its own.
   */
  lemma {:induction false} StripTagsClosedTag(p: string, m: string, q: string)
    requires '<' !in p
    requires '>' !in m && '\n' !in m
    ensures StripTags(p + ['<'] + m + ['>'] + q) == p + StripTags(q)
    decreases |p|
  {
    var s := p + ['<'] + m + ['>'] + q;
    if p == [] {
      assert s == ['<'] + m + ['>'] + q;
      assert s[1..|m| + 1] == m;
      TagEndFirstClose(s, 1, |m| + 1);
      assert s[|m| + 2..] == q;
    } else {
      assert s == [p[0]] + (p[1..] + ['<'] + m + ['>'] + q);
      assert p[0] != '<';
      assert '<' !in p[1..];
      StripTagsClosedTag(p[1..], m, q);
      assert p == [p[0]] + p[1..];
    }
  }

  /**
   * The tag opened before `i` closes at `j` when `j` holds the first `>` and no
   * newline comes before it.
   */
  lemma {:induction false} TagEndFirstClose(s: string, i: nat, j: nat)
    requires i <= j < |s| && s[j] == '>'
    requires '>' !in s[i..j] && '\n' !in s[i..j]
    ensures TagEnd(s, i) == Some(j)
    decreases j - i
  {
    if i < j {
      assert s[i] in s[i..j];
      assert s[i + 1..j] == s[i..j][1..];
      TagEndFirstClose(s, i + 1, j);
    }
  }

  /** A `<` whose tag would have to cross a newline (or never closes) stays. */
  lemma StripTagsUnclosed(t: string)
    requires NeverCloses(t)
    ensures StripTags(['<'] + t) == ['<'] + StripTags(t)
  {
    var s := ['<'] + t;
    assert s[1..] == t;
  }

  /**
   * The same after any text without `<`: such a `<` stays where it is, and
   * the scan goes on after it.
   */
  lemma {:induction false} StripTagsUnclosedAfter(p: string, t: string)
    requires '<' !in p
    requires NeverCloses(t)
    ensures StripTags(p + ['<'] + t) == p + ['<'] + StripTags(t)
    decreases |p|
  {
    if p == [] {
      assert p + ['<'] + t == ['<'] + t;
      StripTagsUnclosed(t);
    } else {
      var s := p + ['<'] + t;
      assert s[0] == p[0] && p[0] != '<';
      assert s[1..] == p[1..] + ['<'] + t;
      assert '<' !in p[1..];
      StripTagsUnclosedAfter(p[1..], t);
      assert p == [p[0]] + p[1..];
    }
  }

  /**
   * The name never holds whitespace, a tag bracket or a dot, whatever the
   * input.
   */
  lemma CleanHtmlSafe(rawHtml: string, isWord: char -> bool)
    requires IsWordClass(isWord)
    ensures var r := CleanHtml(rawHtml, isWord);
      forall i :: 0 <= i < |r| ==> !IsSpace(r[i]) && r[i] != '<' && r[i] != '>' && r[i] != '.'
  {
    CleanNameSafe(CleanHtml(rawHtml, isWord), isWord);
  }

  /** A clean name holds no whitespace, tag bracket or dot. */
  lemma CleanNameSafe(s: string, isWord: char -> bool)
    requires IsWordClass(isWord) && IsCleanName(s, isWord)
    ensures forall i :: 0 <= i < |s| ==> !IsSpace(s[i]) && s[i] != '<' && s[i] != '>' && s[i] != '.'
  {
    forall i | 0 <= i < |s|
      ensures !IsSpace(s[i]) && s[i] != '<' && s[i] != '>' && s[i] != '.'
    {
      if s[i] != '-' {
        assert isWord(s[i]);
      }
    }
  }

  /**
   * The names `cleanhtml` leaves unchanged are exactly the strings of at most
   * 240 hyphens and word characters.
   */
  lemma CleanHtmlFixpoint(s: string, isWord: char -> bool)
    requires IsWordClass(isWord)
    ensures CleanHtml(s, isWord) == s <==> |s| <= MaxNameLength && IsCleanName(s, isWord)
  {
    if |s| <= MaxNameLength && IsCleanName(s, isWord) {
      CleanNameUnchanged(s, isWord);
    }
  }

  /** A clean name of at most 240 characters passes through unchanged. */
  lemma CleanNameUnchanged(s: string, isWord: char -> bool)
    requires IsWordClass(isWord)
    requires |s| <= MaxNameLength && IsCleanName(s, isWord)
    ensures CleanHtml(s, isWord) == s
  {
    CleanNameHasNoSpace(s, isWord);
    CleanHtmlSpaces(s, isWord);
  }

  /** A clean name holds no space, so replacing spaces leaves it as it is. */
  lemma CleanNameHasNoSpace(s: string, isWord: char -> bool)
    requires IsWordClass(isWord) && IsCleanName(s, isWord)
    ensures forall i :: 0 <= i < |s| ==> s[i] == ' ' || s[i] == '-' || isWord(s[i])
    ensures s == [] || (s[0] != ' ' && s[|s| - 1] != ' ')
    ensures SpacesToUnderscores(s) == s
  {
    assert IsSpace(' ');
    assert forall i :: 0 <= i < |s| ==> s[i] != ' ';
  }

  /** `cleanhtml(cleanhtml(s)) == cleanhtml(s)`. */
  lemma CleanHtmlIdempotent(s: string, isWord: char -> bool)
    requires IsWordClass(isWord)
    ensures CleanHtml(CleanHtml(s, isWord), isWord) == CleanHtml(s, isWord)
  {
    CleanHtmlFixpoint(CleanHtml(s, isWord), isWord);
  }

  /**
   * On a text of at most 240 spaces, hyphens and word characters that neither
   * starts nor ends with a space, `cleanhtml` only turns each space into one
   * underscore: a run of spaces is not collapsed.
   */
  lemma CleanHtmlSpaces(s: string, isWord: char -> bool)
    requires IsWordClass(isWord)
    requires |s| <= MaxNameLength
    requires forall i :: 0 <= i < |s| ==> s[i] == ' ' || s[i] == '-' || isWord(s[i])
    requires s == [] || (s[0] != ' ' && s[|s| - 1] != ' ')
    ensures CleanHtml(s, isWord) == SpacesToUnderscores(s)
  {
    SpacedNameUntagged(s, isWord);
    UnderscoredNamePasses(s, isWord);
    CleanHtmlUntagged(s, isWord);
  }

  /** A text of spaces, hyphens and word characters has no tag, and one that neither starts nor ends with a space has no whitespace to strip. */
  lemma SpacedNameUntagged(s: string, isWord: char -> bool)
    requires IsWordClass(isWord)
    requires forall i :: 0 <= i < |s| ==> s[i] == ' ' || s[i] == '-' || isWord(s[i])
    requires s == [] || (s[0] != ' ' && s[|s| - 1] != ' ')
    ensures '<' !in s
    ensures s == [] || (!IsSpace(s[0]) && !IsSpace(s[|s| - 1]))
  {
    assert forall i :: 0 <= i < |s| ==> s[i] != '<';
  }

  /**
   * Without tags and surrounding whitespace, and once the whitelist and the
   * dot removal have nothing left to drop, only the spaces change.
   */
  lemma CleanHtmlUntagged(s: string, isWord: char -> bool)
    requires '<' !in s && |s| <= MaxNameLength
    requires s == [] || (!IsSpace(s[0]) && !IsSpace(s[|s| - 1]))
    requires AllFilenameChars(SpacesToUnderscores(s), isWord) && '.' !in SpacesToUnderscores(s)
    ensures CleanHtml(s, isWord) == SpacesToUnderscores(s)
  {
    StripTagsNoTag(s);
  }

  /** After the spaces are replaced, a text of spaces, hyphens and word characters passes the whitelist and has no dot. */
  lemma UnderscoredNamePasses(s: string, isWord: char -> bool)
    requires IsWordClass(isWord)
    requires forall i :: 0 <= i < |s| ==> s[i] == ' ' || s[i] == '-' || isWord(s[i])
    ensures AllFilenameChars(SpacesToUnderscores(s), isWord) && '.' !in SpacesToUnderscores(s)
  {
    var t := SpacesToUnderscores(s);
    forall i | 0 <= i < |t|
      ensures IsFilenameChar(t[i], isWord) && t[i] != '.'
    {
      if s[i] == ' ' {
        assert t[i] == '_';
      } else {
        assert t[i] == s[i] && (s[i] == '-' || isWord(s[i]));
      }
    }
  }
}
