/** Strings as the TypeScript sources use them: JavaScript whitespace, trimming, `split` and `join`,
    line offsets, and decimal numerals. */
module Text {

  datatype Option<+T> = None | Some(value: T)

  /** The characters of the regular-expression class `\s`, which are also the ones `trim` removes. */
  predicate IsSpace(c: char) {
    var n := c as int;
    9 <= n <= 13 || n == 32 || n == 0xA0 || n == 0x1680 || 0x2000 <= n <= 0x200A
    || n == 0x2028 || n == 0x2029 || n == 0x202F || n == 0x205F || n == 0x3000 || n == 0xFEFF
  }

  /** The characters a regular-expression dot does not match. */
  predicate IsLineTerminator(c: char) {
    c == '\n' || c == '\r' || c as int == 0x2028 || c as int == 0x2029
  }

  predicate IsDigit(c: char) { '0' <= c <= '9' }

  predicate IsLetter(c: char) { 'a' <= c <= 'z' || 'A' <= c <= 'Z' }

  /** The class `[\w-]`. */
  predicate IsWordDash(c: char) { IsLetter(c) || IsDigit(c) || c == '_' || c == '-' }

  // ---------------------------------------------------------------- runs and trimming

  /** Length of the longest prefix of `s` whose characters all satisfy `p`. */
  function Run(s: string, p: char -> bool): (n: nat)
    ensures n <= |s|
    ensures forall k :: 0 <= k < n ==> p(s[k])
    ensures n < |s| ==> !p(s[n])
  {
    if s != "" && p(s[0]) then 1 + Run(s[1..], p) else 0
  }

  /** `s` without its leading characters that satisfy `p`. */
  function DropStart(s: string, p: char -> bool): string { s[Run(s, p)..] }

  /** `s` without its trailing characters that satisfy `p`. */
  function DropEnd(s: string, p: char -> bool): (r: string)
    ensures |r| <= |s| && r == s[..|r|]
    ensures forall k :: |r| <= k < |s| ==> p(s[k])
    ensures r != "" ==> !p(r[|r| - 1])
  {
    if s != "" && p(s[|s| - 1]) then DropEnd(s[..|s| - 1], p) else s
  }

  function TrimStart(s: string): string { DropStart(s, IsSpace) }

  function TrimEnd(s: string): (r: string)
    ensures |r| <= |s| && r == s[..|r|]
  { DropEnd(s, IsSpace) }

  /** JavaScript's `trim`. */
  function Trim(s: string): string { TrimEnd(TrimStart(s)) }

  lemma {:induction false} TrimIsIdentity(s: string)
    requires s != "" ==> !IsSpace(s[0]) && !IsSpace(s[|s| - 1])
    ensures Trim(s) == s
  {
    assert Run(s, IsSpace) == 0;
  }

  // ---------------------------------------------------------------- split and join

  function IndexOf(s: string, c: char): (i: nat)
    ensures i <= |s|
    ensures i < |s| ==> s[i] == c
    ensures forall k :: 0 <= k < i ==> s[k] != c
  {
    if s == "" || s[0] == c then 0 else 1 + IndexOf(s[1..], c)
  }

  lemma Assoc(a: string, b: string, c: string)
    ensures (a + b) + c == a + (b + c)
  {
  }

  // Scanning a string whose front part is known.

  lemma RunOver(mid: string, post: string, p: char -> bool)
    requires forall k :: 0 <= k < |mid| ==> p(mid[k])
    requires post == "" || !p(post[0])
    ensures Run(mid + post, p) == |mid|
    ensures (mid + post)[..|mid|] == mid && (mid + post)[|mid|..] == post
  {
    hide Run;
    var s := mid + post;
    assert forall k :: 0 <= k < |mid| ==> s[k] == mid[k];
    assert post != "" ==> s[|mid|] == post[0];
  }

  lemma IndexOver(mid: string, c: char, post: string)
    requires c !in mid
    ensures IndexOf(mid + [c] + post, c) == |mid|
    ensures (mid + [c] + post)[..|mid|] == mid && (mid + [c] + post)[|mid| + 1..] == post
  {
    hide IndexOf;
    var s := mid + [c] + post;
    assert forall k :: 0 <= k < |mid| ==> s[k] == mid[k];
    assert s[|mid|] == c;
  }

  function Join(parts: seq<string>, sep: char): string {
    if parts == [] then ""
    else if |parts| == 1 then parts[0]
    else parts[0] + [sep] + Join(parts[1..], sep)
  }

  /** JavaScript's `s.split(sep)` for a one-character separator. */
  function Split(s: string, sep: char): (parts: seq<string>)
    ensures |parts| >= 1
    ensures forall k :: 0 <= k < |parts| ==> sep !in parts[k]
    ensures Join(parts, sep) == s
    decreases |s|
  {
    var i := IndexOf(s, sep);
    if i == |s| then [s]
    else
      assert s == s[..i] + [sep] + s[i + 1..];
      [s[..i]] + Split(s[i + 1..], sep)
  }

  lemma {:induction false} SplitHead(a: string, b: string, sep: char)
    requires sep !in a
    ensures Split(a + [sep] + b, sep) == [a] + Split(b, sep)
  {
    var s := a + [sep] + b;
    assert s[|a|] == sep;
    assert forall k :: 0 <= k < |a| ==> s[k] == a[k];
    assert IndexOf(s, sep) == |a|;
    assert s[..|a|] == a && s[|a| + 1..] == b;
  }

  lemma {:induction false} SplitJoin(parts: seq<string>, sep: char)
    requires |parts| >= 1
    requires forall k :: 0 <= k < |parts| ==> sep !in parts[k]
    ensures Split(Join(parts, sep), sep) == parts
  {
    if |parts| == 1 {
      assert IndexOf(parts[0], sep) == |parts[0]|;
    } else {
      SplitJoin(parts[1..], sep);
      SplitHead(parts[0], Join(parts[1..], sep), sep);
    }
  }

  lemma {:induction false} JoinAppend(a: seq<string>, b: seq<string>, sep: char)
    requires a != [] && b != []
    ensures Join(a + b, sep) == Join(a, sep) + [sep] + Join(b, sep)
  {
    if |a| == 1 {
      assert (a + b)[1..] == b;
    } else {
      assert (a + b)[1..] == a[1..] + b;
      JoinAppend(a[1..], b, sep);
    }
  }

  lemma SplitAppend(a: string, b: string, sep: char)
    ensures Split(a + [sep] + b, sep) == Split(a, sep) + Split(b, sep)
  {
    JoinAppend(Split(a, sep), Split(b, sep), sep);
    SplitJoin(Split(a, sep) + Split(b, sep), sep);
  }

  // ---------------------------------------------------------------- line offsets

  function Lines(text: string): (ls: seq<string>)
    ensures |ls| >= 1 && Join(ls, '\n') == text
  { Split(text, '\n') }

  lemma LinesAppend(a: string, b: string)
    ensures Lines(a + "\n" + b) == Lines(a) + Lines(b)
  {
    hide Split;
    assert a + "\n" + b == a + ['\n'] + b;
    SplitAppend(a, b, '\n');
  }

  /** Offset of the first character of line `k`; for `k == |lines|`, one past the end of the text. */
  function LineStart(lines: seq<string>, k: nat): nat
    requires k <= |lines|
  {
    if k == 0 then 0 else LineStart(lines, k - 1) + |lines[k - 1]| + 1
  }

  lemma {:induction false} LineStartMonotone(lines: seq<string>, i: nat, j: nat)
    requires i <= j <= |lines|
    ensures LineStart(lines, i) + (j - i) <= LineStart(lines, j)
    decreases j
  {
    if i < j { LineStartMonotone(lines, i, j - 1); }
  }

  lemma {:induction false} LineStartOfPrefix(lines: seq<string>, k: nat)
    requires 1 <= k <= |lines|
    ensures |Join(lines[..k], '\n')| + 1 == LineStart(lines, k)
  {
    if k == 1 {
      assert LineStart(lines, 0) == 0;
    } else {
      LineStartOfPrefix(lines, k - 1);
      assert lines[..k] == lines[..k - 1] + [lines[k - 1]];
      JoinAppend(lines[..k - 1], [lines[k - 1]], '\n');
    }
  }

  /** Joining lines `i..j` gives back the text between their offsets. */
  lemma {:induction false} JoinIsSlice(lines: seq<string>, i: nat, j: nat)
    requires i < j <= |lines|
    ensures LineStart(lines, i) < LineStart(lines, j) <= |Join(lines, '\n')| + 1
    ensures Join(lines[i..j], '\n') == Join(lines, '\n')[LineStart(lines, i)..LineStart(lines, j) - 1]
  {
    LineStartMonotone(lines, i, j);
    LineStartMonotone(lines, j, |lines|);
    LineStartOfPrefix(lines, |lines|);
    assert lines[..|lines|] == lines;
    LineStartOfPrefix(lines, j);
    var upto := Join(lines[..j], '\n');
    if j < |lines| {
      assert lines == lines[..j] + lines[j..];
      JoinAppend(lines[..j], lines[j..], '\n');
    }
    assert upto == Join(lines, '\n')[..|upto|];
    if i > 0 {
      LineStartOfPrefix(lines, i);
      assert lines[..j] == lines[..i] + lines[i..j];
      JoinAppend(lines[..i], lines[i..j], '\n');
    } else {
      assert lines[..j] == lines[i..j];
    }
  }

  lemma {:induction false} TextLength(text: string)
    ensures LineStart(Lines(text), |Lines(text)|) == |text| + 1
  {
    var lines := Lines(text);
    LineStartOfPrefix(lines, |lines|);
    assert lines[..|lines|] == lines;
  }

  lemma JoinOne(line: string, sep: char)
    ensures Join([line], sep) == line
  {
  }

  lemma LineSlice(text: string, k: nat)
    requires k < |Lines(text)|
    ensures var s := LineStart(Lines(text), k);
      s + |Lines(text)[k]| <= |text| && text[s..s + |Lines(text)[k]|] == Lines(text)[k]
  {
    hide Lines, LineStart, Join;
    var lines := Lines(text);
    JoinIsSlice(lines, k, k + 1);
    NextLineStart(lines, k);
    JoinOne(lines[k], '\n');
    assert lines[k..k + 1] == [lines[k]];
  }

  lemma NextLineStart(lines: seq<string>, k: nat)
    requires k < |lines|
    ensures LineStart(lines, k + 1) == LineStart(lines, k) + |lines[k]| + 1
  {
  }

  lemma NewlineBefore(text: string, k: nat)
    requires 0 < k < |Lines(text)|
    ensures 0 < LineStart(Lines(text), k) <= |text| && text[LineStart(Lines(text), k) - 1] == '\n'
  {
    hide Lines, LineStart, Join;
    var lines := Lines(text);
    JoinAppend(lines[..k], lines[k..], '\n');
    assert lines == lines[..k] + lines[k..];
    LineStartOfPrefix(lines, k);
  }

  // ---------------------------------------------------------------- decimal numerals

  function DigitChar(d: nat): (c: char)
    requires d < 10
    ensures IsDigit(c)
  { ('0' as int + d) as char }

  /** `String(n)` for a non-negative integer. */
  function Numeral(n: nat): (s: string)
    ensures s != ""
    ensures forall k :: 0 <= k < |s| ==> IsDigit(s[k])
  {
    if n < 10 then [DigitChar(n)] else Numeral(n / 10) + [DigitChar(n % 10)]
  }

  /** `Number(s)` for a string of digits. */
  function NumeralValue(s: string): nat
    requires forall k :: 0 <= k < |s| ==> IsDigit(s[k])
  {
    if s == "" then 0
    else
      assert IsDigit(s[|s| - 1]);
      10 * NumeralValue(s[..|s| - 1]) + (s[|s| - 1] as int - '0' as int)
  }

  lemma {:induction false} NumeralRoundTrip(n: nat)
    ensures NumeralValue(Numeral(n)) == n
  {
    if n >= 10 {
      NumeralRoundTrip(n / 10);
      assert Numeral(n)[..|Numeral(n)| - 1] == Numeral(n / 10);
    }
  }

  lemma NumeralInjective(m: nat, n: nat)
    requires Numeral(m) == Numeral(n)
    ensures m == n
  {
    NumeralRoundTrip(m);
    NumeralRoundTrip(n);
  }
}
