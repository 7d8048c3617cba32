/** The default type formatter (typeformat.js) and the word splitting it relies on. */
module TypeFormatter {
  import opened Values

  predicate IsLower(c: char) { 'a' <= c <= 'z' }
  predicate IsUpper(c: char) { 'A' <= c <= 'Z' }
  predicate IsDigit(c: char) { '0' <= c <= '9' }
  predicate IsLetter(c: char) { IsLower(c) || IsUpper(c) }
  predicate IsWordChar(c: char) { IsLetter(c) || IsDigit(c) }

  /** The characters a snake-cased string is made of. */
  predicate IsSnakeChar(c: char) { IsLower(c) || IsDigit(c) || c == '_' }

  /** The characters a formatted type is made of. */
  predicate IsTypeChar(c: char) { IsUpper(c) || IsDigit(c) || c == '_' }

  function ToLower(c: char): char {
    if IsUpper(c) then (c as int + 32) as char else c
  }

  function ToUpper(c: char): char {
    if IsLower(c) then (c as int - 32) as char else c
  }

  /** `s.toUpperCase()` on the ASCII letters. */
  function UpperCase(s: string): string {
    seq(|s|, i requires 0 <= i < |s| => ToUpper(s[i]))
  }

  /** A snake-cased string in which words are joined by single underscores: it neither
      starts nor ends with `_` and has no two `_` in a row. */
  predicate SnakeShaped(r: string) {
    && (forall k :: 0 <= k < |r| ==> IsSnakeChar(r[k]))
    && (r != [] ==> r[0] != '_' && r[|r| - 1] != '_')
    && (forall k :: 0 <= k < |r| - 1 ==> r[k] == '_' ==> r[k + 1] != '_')
  }

  /** Whether a new word starts at s[i], where s[i-1] and s[i] are word characters:
      "someAction" splits before 'A', "XMLHttp" before 'H', "action1" before '1'. */
  predicate Boundary(s: string, i: nat)
    requires 0 < i < |s|
  {
    || (IsLower(s[i - 1]) && IsUpper(s[i]))
    || (IsUpper(s[i - 1]) && IsUpper(s[i]) && i + 1 < |s| && IsLower(s[i + 1]))
    || (IsLetter(s[i - 1]) && IsDigit(s[i]))
    || (IsDigit(s[i - 1]) && IsLetter(s[i]))
  }

  /** Snake-cases s[i..]. `started` says whether a word has been written already, `gap`
      whether a separator character has been skipped since the last word character. */
  function SnakeFrom(s: string, i: nat, started: bool, gap: bool): string
    requires i <= |s|
    requires started && !gap ==> 0 < i
    decreases |s| - i
  {
    if i == |s| then ""
    else if !IsWordChar(s[i]) then SnakeFrom(s, i + 1, started, started)
    else
      var sep := if started && (gap || Boundary(s, i)) then "_" else "";
      sep + [ToLower(s[i])] + SnakeFrom(s, i + 1, true, false)
  }

  /** Every suffix snake-cases to lower-case words joined by single underscores; it
      starts with `_` only when a word has been written before it. */
  lemma {:induction false} SnakeFromShape(s: string, i: nat, started: bool, gap: bool)
    requires i <= |s|
    requires started && !gap ==> 0 < i
    ensures var r := SnakeFrom(s, i, started, gap);
      && (forall k :: 0 <= k < |r| ==> IsSnakeChar(r[k]))
      && (r != [] ==> r[|r| - 1] != '_')
      && (r != [] && r[0] == '_' ==> started && |r| > 1 && r[1] != '_')
      && (forall k :: 0 <= k < |r| - 1 ==> r[k] == '_' ==> r[k + 1] != '_')
    decreases |s| - i
  {
    if i == |s| {
    } else if !IsWordChar(s[i]) {
      SnakeFromShape(s, i + 1, started, started);
    } else {
      SnakeFromShape(s, i + 1, true, false);
    }
  }

  /** lodash `snakeCase`, restricted to ASCII: words are runs of letters and digits split
      at case and digit changes, lower-cased and joined with `_`. */
  function SnakeCase(s: string): (r: string)
    ensures SnakeShaped(r)
  {
    SnakeFromShape(s, 0, false, false);
    SnakeFrom(s, 0, false, false)
  }

  /** One segment of a type: an upper-cased, snake-cased name. */
  function Segment(s: string): string {
    UpperCase(SnakeCase(s))
  }

  /** `typeFormat(name, prefix = '')`. */
  function TypeFormat(name: string, prefix: Option<string>): string {
    var p := prefix.GetOr("");
    var pre := if |p| == 0 then "" else Segment(p) + "_";
    pre + Segment(name)
  }

  /** An absent prefix counts as the empty one, and only a non-empty prefix contributes a
      leading segment and `_`; the name's segment always ends the type, and the type is
      made of upper-case letters, digits and `_` only. */
  lemma TypeFormatShape(name: string, prefix: Option<string>)
    ensures var r := TypeFormat(name, prefix);
      && (forall k :: 0 <= k < |r| ==> IsTypeChar(r[k]))
      && |Segment(name)| <= |r| && r[|r| - |Segment(name)|..] == Segment(name)
      && (prefix.GetOr("") == "" ==> r == Segment(name))
      && (prefix.GetOr("") != "" ==>
            |r| == |Segment(prefix.value)| + 1 + |Segment(name)| &&
            r[..|Segment(prefix.value)| + 1] == Segment(prefix.value) + "_")
  {
    SegmentChars(prefix.GetOr(""));
    SegmentChars(name);
  }

  /** Upper-casing a snake-cased string leaves only type characters. */
  lemma SegmentChars(s: string)
    ensures forall k :: 0 <= k < |Segment(s)| ==> IsTypeChar(Segment(s)[k])
  {
    var snake := SnakeCase(s);
    forall k | 0 <= k < |Segment(s)|
      ensures IsTypeChar(Segment(s)[k])
    {
      assert IsSnakeChar(snake[k]);
    }
  }

  /** No formatted type contains a lower-case letter. */
  lemma NoLowerCase(name: string, prefix: Option<string>)
    ensures forall k :: 0 <= k < |TypeFormat(name, prefix)| ==> !IsLower(TypeFormat(name, prefix)[k])
  {
    TypeFormatShape(name, prefix);
  }

  /** The default parameter: leaving the prefix out is the same as passing ''. */
  lemma AbsentPrefixIsEmpty(name: string)
    ensures TypeFormat(name, None) == TypeFormat(name, Some("")) == Segment(name)
  {
  }

  /** With a non-empty prefix the type is the prefix segment, `_`, and the name segment. */
  lemma PrefixedType(name: string, prefix: string)
    requires prefix != ""
    ensures TypeFormat(name, Some(prefix)) == Segment(prefix) + "_" + Segment(name)
  {
    var r := TypeFormat(name, Some(prefix));
    TypeFormatShape(name, Some(prefix));
    var n := |Segment(prefix)| + 1;
    assert r == r[..n] + r[n..];
  }

  /** Snake-casing one lower-case letter that continues a word. */
  lemma LowerStep(s: string, i: nat)
    requires 0 < i < |s| && IsLower(s[i]) && !IsDigit(s[i - 1])
    ensures SnakeFrom(s, i, true, false) == [s[i]] + SnakeFrom(s, i + 1, true, false)
  {
    assert !Boundary(s, i);
    assert ToLower(s[i]) == s[i];
  }

  /** Snake-casing a string that starts with a lower-case letter. */
  lemma StartStep(s: string)
    requires 0 < |s| && IsLower(s[0])
    ensures SnakeFrom(s, 0, false, false) == [s[0]] + SnakeFrom(s, 1, true, false)
  {
    assert ToLower(s[0]) == s[0];
  }

  /** Snake-casing a word character that starts a new word. */
  lemma BoundaryStep(s: string, i: nat)
    requires 0 < i < |s| && IsWordChar(s[i]) && Boundary(s, i)
    ensures SnakeFrom(s, i, true, false) == ['_', ToLower(s[i])] + SnakeFrom(s, i + 1, true, false)
  {
  }
}
