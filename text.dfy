/** String helpers with the exact behaviour of the JavaScript and Python
    library calls the planner uses: `split`, `trim`/`strip`, and the
    decimal rendering of an integer. */
module Text {

  /** Characters JavaScript's `String.prototype.trim` removes: the
      WhiteSpace and LineTerminator productions of ECMA-262. */
  predicate IsJsSpace(c: char) {
    c == ' ' || c == '\t' || c == '\n' || c == '\r' || c == '\U{000B}' || c == '\U{000C}'
    || c == '\U{00A0}' || c == '\U{1680}' || ('\U{2000}' <= c <= '\U{200A}')
    || c == '\U{2028}' || c == '\U{2029}' || c == '\U{202F}' || c == '\U{205F}'
    || c == '\U{3000}' || c == '\U{FEFF}'
  }

  /** Characters Python's `str.strip()` removes (those for which
      `str.isspace()` holds). Unlike JavaScript it strips the information
      separators U+001C..U+001F and NEL U+0085, and keeps U+FEFF. */
  predicate IsPySpace(c: char) {
    ('\t' <= c <= '\r') || ('\U{001C}' <= c <= '\U{001F}') || c == ' '
    || c == '\U{0085}' || c == '\U{00A0}' || c == '\U{1680}' || ('\U{2000}' <= c <= '\U{200A}')
    || c == '\U{2028}' || c == '\U{2029}' || c == '\U{202F}' || c == '\U{205F}' || c == '\U{3000}'
  }

  /** The first position at or after `i` whose character does not satisfy
      `space` (or `|s|`). */
  function SkipSpaces(s: string, i: nat, space: char -> bool): (k: nat)
    requires i <= |s|
    ensures i <= k <= |s|
    ensures forall j :: i <= j < k ==> space(s[j])
    ensures k < |s| ==> !space(s[k])
    decreases |s| - i
  {
    if i < |s| && space(s[i]) then SkipSpaces(s, i + 1, space) else i
  }

  /** The last position `k`, at least `lo` and at most `j`, such that the
      characters from `k` up to `j` all satisfy `space`. */
  function BackSpaces(s: string, lo: nat, j: nat, space: char -> bool): (k: nat)
    requires lo <= j <= |s|
    ensures lo <= k <= j
    ensures forall m :: k <= m < j ==> space(s[m])
    ensures k > lo ==> !space(s[k - 1])
    decreases j
  {
    if j > lo && space(s[j - 1]) then BackSpaces(s, lo, j - 1, space) else j
  }

  /** `s` without leading and trailing characters that satisfy `space`:
      the infix `s[a..b]` such that everything before `a` and from `b` on
      satisfies `space` and the infix neither starts nor ends with one. */
  function Trim(s: string, space: char -> bool): (r: string)
    ensures |r| <= |s|
    ensures r == [] || (!space(r[0]) && !space(r[|r| - 1]))
  {
    var a := SkipSpaces(s, 0, space);
    var b := BackSpaces(s, a, |s|, space);
    s[a..b]
  }

  /** JavaScript's `s.trim()`. */
  function JsTrim(s: string): string { Trim(s, IsJsSpace) }

  /** Python's `s.strip()`. */
  function PyStrip(s: string): string { Trim(s, IsPySpace) }

  /** Trimming removes exactly the spaces around a clean core: a core that
      neither starts nor ends with a space, wrapped in spaces, is given back. */
  lemma {:induction false} TrimCore(pre: string, core: string, post: string, space: char -> bool)
    requires forall i :: 0 <= i < |pre| ==> space(pre[i])
    requires forall i :: 0 <= i < |post| ==> space(post[i])
    requires core == [] || (!space(core[0]) && !space(core[|core| - 1]))
    ensures Trim(pre + core + post, space) == core
  {
    var s := pre + core + post;
    var a := SkipSpaces(s, 0, space);
    if core == [] {
      assert forall j :: 0 <= j < |s| ==> space(s[j]) by {
        forall j | 0 <= j < |s| ensures space(s[j]) {
          if j < |pre| { assert s[j] == pre[j]; } else { assert s[j] == post[j - |pre|]; }
        }
      }
      assert a == |s|;
    } else {
      assert s[|pre|] == core[0];
      forall j | 0 <= j < |pre| ensures space(s[j]) { assert s[j] == pre[j]; }
      assert a == |pre|;
      var b := BackSpaces(s, a, |s|, space);
      assert s[|pre| + |core| - 1] == core[|core| - 1];
      forall j | |pre| + |core| <= j < |s| ensures space(s[j]) {
        assert s[j] == post[j - |pre| - |core|];
      }
      assert b == |pre| + |core|;
      assert s[a..b] == core;
    }
  }

  /** Trimming a string that neither starts nor ends with a space gives it back. */
  lemma {:induction false} TrimClean(s: string, space: char -> bool)
    requires s == [] || (!space(s[0]) && !space(s[|s| - 1]))
    ensures Trim(s, space) == s
  {
    TrimCore([], s, [], space);
    assert [] + s + [] == s;
  }

  /** One leading space before a clean core is trimmed away. */
  lemma {:induction false} TrimLead(c: char, core: string, space: char -> bool)
    requires space(c)
    requires core == [] || (!space(core[0]) && !space(core[|core| - 1]))
    ensures Trim([c] + core, space) == core
  {
    TrimCore([c], core, [], space);
    assert [c] + core + [] == [c] + core;
  }

  /** The number of occurrences of `c` in `s`. */
  function Occurrences(s: string, c: char): nat {
    if s == [] then 0 else (if s[0] == c then 1 else 0) + Occurrences(s[1..], c)
  }

  /** `parts` glued together with `sep` between neighbours (`Array.prototype.join`). */
  function Join(parts: seq<string>, sep: char): string {
    if |parts| == 0 then ""
    else if |parts| == 1 then parts[0]
    else parts[0] + [sep] + Join(parts[1..], sep)
  }

  /** JavaScript's `s.split(sep)` for a one-character separator: the pieces
      between separators, one more piece than there are separators, and
      joining them back gives `s`. */
  function Split(s: string, sep: char): (r: seq<string>)
    ensures |r| == Occurrences(s, sep) + 1
    ensures forall i :: 0 <= i < |r| ==> sep !in r[i]
    ensures Join(r, sep) == s
  {
    if s == [] then [""]
    else if s[0] == sep then [""] + Split(s[1..], sep)
    else
      var rest := Split(s[1..], sep);
      [[s[0]] + rest[0]] + rest[1..]
  }

  /** Splitting a joined list of separator-free pieces gives the pieces back. */
  lemma {:induction false} SplitJoin(parts: seq<string>, sep: char)
    requires |parts| >= 1
    requires forall i :: 0 <= i < |parts| ==> sep !in parts[i]
    ensures Split(Join(parts, sep), sep) == parts
  {
    if |parts| == 1 {
      SplitAlone(parts[0], sep);
    } else {
      SplitJoin(parts[1..], sep);
      SplitPiece(parts[0], sep, parts[1..]);
    }
  }

  /** A string without the separator splits into itself alone. */
  lemma {:induction false} SplitAlone(piece: string, sep: char)
    requires sep !in piece
    ensures Split(piece, sep) == [piece]
  {
    if piece != [] {
      SplitAlone(piece[1..], sep);
      assert piece == [piece[0]] + piece[1..];
    }
  }

  /** Splitting `piece`, a separator and then `Join(tail)` yields `piece`
      followed by the split of the tail. */
  lemma {:induction false} SplitPiece(piece: string, sep: char, tail: seq<string>)
    requires sep !in piece && tail != []
    requires Split(Join(tail, sep), sep) == tail
    ensures Split(piece + [sep] + Join(tail, sep), sep) == [piece] + tail
  {
    var joined := Join(tail, sep);
    var whole := piece + [sep] + joined;
    if piece == [] {
      assert whole == [sep] + joined;
      assert whole[1..] == joined;
    } else {
      var rest := piece[1..] + [sep] + joined;
      SplitPiece(piece[1..], sep, tail);
      assert whole == [piece[0]] + rest;
      SplitCons(piece[0], rest, sep);
      assert [piece[0]] + piece[1..] == piece;
    }
  }

  /** A first character other than the separator joins the first piece. */
  lemma {:induction false} SplitCons(c: char, rest: string, sep: char)
    requires c != sep
    ensures Split([c] + rest, sep) == [[c] + Split(rest, sep)[0]] + Split(rest, sep)[1..]
  {
    assert ([c] + rest)[1..] == rest;
  }

  /** The value of a digit character. */
  function DigitValue(c: char): nat
    requires '0' <= c <= '9'
  {
    c as int - '0' as int
  }

  /** The value of a string of decimal digits. */
  function DecimalValue(s: string): nat
    requires forall i :: 0 <= i < |s| ==> '0' <= s[i] <= '9'
  {
    if s == [] then 0 else 10 * DecimalValue(s[..|s| - 1]) + DigitValue(s[|s| - 1])
  }

  /** The shortest decimal numeral of `n`, as JavaScript renders a
      non-negative integer in a template literal. */
  function NatToString(n: nat): (r: string)
    ensures |r| >= 1 && forall i :: 0 <= i < |r| ==> '0' <= r[i] <= '9'
    ensures |r| > 1 ==> r[0] != '0'
    ensures DecimalValue(r) == n
  {
    var d := [('0' as int + n % 10) as char];
    if n < 10 then d
    else
      var r := NatToString(n / 10) + d;
      assert r[..|r| - 1] == NatToString(n / 10);
      r
  }

  /** The decimal rendering of an integer, with a leading minus sign when negative. */
  function IntToString(i: int): (r: string)
    ensures i >= 0 ==> r == NatToString(i)
    ensures i < 0 ==> r == "-" + NatToString(-i)
  {
    if i < 0 then "-" + NatToString(-i) else NatToString(i)
  }
}
