/** The pieces of Go's `strings`, `strconv` and `path` packages that the
    modelled code calls, over `string` = `seq<char>`. */
module Strings {
  import opened Wrappers

  predicate HasPrefix(s: string, p: string) {
    |p| <= |s| && s[..|p|] == p
  }

  predicate HasSuffix(s: string, p: string) {
    |p| <= |s| && s[|s| - |p|..] == p
  }

  /** strings.TrimPrefix: removes one leading `p`, if present. */
  function TrimPrefix(s: string, p: string): (r: string)
    ensures HasPrefix(s, p) ==> s == p + r
    ensures !HasPrefix(s, p) ==> r == s
  {
    if HasPrefix(s, p) then s[|p|..] else s
  }

  /** strings.TrimSuffix: removes one trailing `p`, if present. */
  function TrimSuffix(s: string, p: string): (r: string)
    ensures HasSuffix(s, p) ==> s == r + p
    ensures !HasSuffix(s, p) ==> r == s
  {
    if HasSuffix(s, p) then s[..|s| - |p|] else s
  }

  /** strings.TrimRight(s, "\n"): removes every trailing newline. */
  function TrimTrailingNewlines(s: string): (r: string)
    ensures |r| <= |s| && s[..|r|] == r
    ensures r == [] || r[|r| - 1] != '\n'
    ensures forall i :: |r| <= i < |s| ==> s[i] == '\n'
  {
    if s != [] && s[|s| - 1] == '\n' then TrimTrailingNewlines(s[..|s| - 1]) else s
  }

  /** strings.Split(s, string(sep)): the pieces between separators; always
      one more piece than there are separators. */
  function Split(s: string, sep: char): (parts: seq<string>)
    ensures |parts| >= 1
    ensures forall i :: 0 <= i < |parts| ==> sep !in parts[i]
    decreases |s|
  {
    if sep !in s then [s]
    else
      var i := FirstIndex(s, sep);
      [s[..i]] + Split(s[i + 1..], sep)
  }

  /** Joins pieces with a separator; the inverse of Split. */
  function JoinWith(parts: seq<string>, sep: char): string
  {
    if |parts| == 0 then [] else if |parts| == 1 then parts[0]
    else parts[0] + [sep] + JoinWith(parts[1..], sep)
  }

  function FirstIndex(s: string, c: char): (i: nat)
    requires c in s
    ensures i < |s| && s[i] == c && c !in s[..i]
  {
    if s[0] == c then 0 else 1 + FirstIndex(s[1..], c)
  }

  lemma {:induction false} SplitJoin(s: string, sep: char)
    ensures JoinWith(Split(s, sep), sep) == s
    decreases |s|
  {
    if sep in s {
      var i := FirstIndex(s, sep);
      var rest := Split(s[i + 1..], sep);
      assert Split(s, sep) == [s[..i]] + rest;
      SplitJoin(s[i + 1..], sep);
      JoinCons(s[..i], rest, sep);
      assert s == s[..i] + [sep] + s[i + 1..];
    }
  }

  /** The first separator after a separator-free head is the one right
      after it. */
  lemma {:induction false} FirstIndexAfter(head: string, sep: char, tail: string)
    requires sep !in head
    ensures FirstIndex(head + [sep] + tail, sep) == |head|
    decreases |head|
  {
    if head != [] {
      assert (head + [sep] + tail)[1..] == head[1..] + [sep] + tail;
      FirstIndexAfter(head[1..], sep, tail);
    }
  }

  /** Splitting a join of separator-free pieces gives the pieces back. */
  lemma {:induction false} SplitOfJoin(parts: seq<string>, sep: char)
    requires |parts| >= 1
    requires forall i :: 0 <= i < |parts| ==> sep !in parts[i]
    ensures Split(JoinWith(parts, sep), sep) == parts
    decreases |parts|
  {
    if |parts| > 1 {
      var rest := JoinWith(parts[1..], sep);
      assert parts == [parts[0]] + parts[1..];
      JoinCons(parts[0], parts[1..], sep);
      var s := parts[0] + [sep] + rest;
      FirstIndexAfter(parts[0], sep, rest);
      assert s[..|parts[0]|] == parts[0] && s[|parts[0]| + 1..] == rest;
      SplitOfJoin(parts[1..], sep);
    }
  }

  /** Appending a separator and a separator-free piece appends one piece. */
  lemma SplitSnoc(s: string, sep: char, last: string)
    requires sep !in last
    ensures Split(s + [sep] + last, sep) == Split(s, sep) + [last]
  {
    SplitJoin(s, sep);
    JoinSnoc(Split(s, sep), last, sep);
    SplitOfJoin(Split(s, sep) + [last], sep);
  }

  lemma {:induction false} JoinSnoc(parts: seq<string>, last: string, sep: char)
    requires |parts| >= 1
    ensures JoinWith(parts + [last], sep) == JoinWith(parts, sep) + [sep] + last
    decreases |parts|
  {
    if |parts| == 1 {
      assert parts + [last] == [parts[0]] + [last];
      JoinCons(parts[0], [last], sep);
    } else {
      assert parts + [last] == [parts[0]] + (parts[1..] + [last]);
      JoinCons(parts[0], parts[1..] + [last], sep);
      JoinSnoc(parts[1..], last, sep);
      assert parts == [parts[0]] + parts[1..];
      JoinCons(parts[0], parts[1..], sep);
    }
  }

  lemma JoinCons(head: string, rest: seq<string>, sep: char)
    requires |rest| >= 1
    ensures JoinWith([head] + rest, sep) == head + [sep] + JoinWith(rest, sep)
  {
    assert ([head] + rest)[1..] == rest;
  }

  predicate IsDigit(c: char) { '0' <= c <= '9' }

  predicate AllDigits(s: string) { forall i :: 0 <= i < |s| ==> IsDigit(s[i]) }

  function DigitsValue(s: string): (n: nat)
    requires AllDigits(s)
  {
    if s == [] then 0 else 10 * DigitsValue(s[..|s| - 1]) + (s[|s| - 1] as int - '0' as int)
  }

  /** strconv.Atoi for base 10: an optional sign and at least one digit; any
      other text is a syntax error (None). The model's integers are
      unbounded, so the range error of Atoi is not modelled. */
  function Atoi(s: string): (r: Option<int>)
    ensures r.Some? ==> s != []
    ensures r.Some? <==>
      s != [] && (AllDigits(s) || (|s| > 1 && (s[0] == '+' || s[0] == '-') && AllDigits(s[1..])))
    ensures AllDigits(s) && s != [] ==> r == Some(DigitsValue(s))
    ensures |s| > 1 && (s[0] == '+' || s[0] == '-') && AllDigits(s[1..]) ==>
      r == Some(if s[0] == '-' then 0 - DigitsValue(s[1..]) else DigitsValue(s[1..]))
  {
    if s == [] then None
    else if (s[0] == '+' || s[0] == '-') && |s| > 1 && AllDigits(s[1..]) then
      var v: int := DigitsValue(s[1..]);
      Some(if s[0] == '-' then -v else v)
    else if AllDigits(s) then Some(DigitsValue(s))
    else None
  }

  /** Decimal text of a natural number (strconv.Itoa on non-negative values). */
  function Itoa(n: nat): (s: string)
    ensures s != [] && AllDigits(s) && DigitsValue(s) == n
  {
    if n < 10 then ['0' + n as char] else Itoa(n / 10) + ['0' + (n % 10) as char]
  }

  /** fmt's %d of an int. */
  function FormatInt(n: int): (s: string)
    ensures Atoi(s) == Some(n)
  {
    if n < 0 then "-" + Itoa(-n) else Itoa(n)
  }

  /** Each line followed by a newline. */
  function Lines(lines: seq<string>): string {
    if lines == [] then "" else Lines(lines[..|lines| - 1]) + lines[|lines| - 1] + "\n"
  }

  /** The item lines of a summary: each item after the bullet `mark`. */
  function Bulleted(mark: string, items: seq<string>): (lines: seq<string>)
    ensures |lines| == |items| && forall i :: 0 <= i < |items| ==> lines[i] == mark + items[i]
  {
    if items == [] then [] else Bulleted(mark, items[..|items| - 1]) + [mark + items[|items| - 1]]
  }

  /** A titled list of a summary, absent when it has no items. */
  function Section(title: string, mark: string, items: seq<string>): (lines: seq<string>)
    ensures |lines| == if items == [] then 0 else 1 + |items|
    ensures forall i :: 0 <= i < |items| ==> mark + items[i] in lines
    ensures items != [] ==> lines[0] == title && lines[|lines| - 1] == mark + items[|items| - 1]
  {
    if items == [] then [] else
      var lines := [title] + Bulleted(mark, items);
      assert forall i :: 0 <= i < |items| ==> lines[1 + i] == mark + items[i];
      lines
  }

  /** Go's `<` on strings: byte-wise lexicographic order. For UTF-8 text this
      is the order of code points, which is how chars compare here. */
  predicate LexLess(a: string, b: string)
    decreases |a|
  {
    if a == [] then b != []
    else if b == [] then false
    else a[0] < b[0] || (a[0] == b[0] && LexLess(a[1..], b[1..]))
  }

  lemma {:induction false} LexLessIrreflexive(a: string)
    ensures !LexLess(a, a)
    decreases |a|
  {
    if a != [] { LexLessIrreflexive(a[1..]); }
  }

  lemma {:induction false} LexLessTransitive(a: string, b: string, c: string)
    requires LexLess(a, b) && LexLess(b, c)
    ensures LexLess(a, c)
    decreases |a|
  {
    if a != [] && b != [] && c != [] && a[0] == b[0] == c[0] {
      LexLessTransitive(a[1..], b[1..], c[1..]);
    }
  }

  lemma {:induction false} LexLessTotal(a: string, b: string)
    ensures a == b || LexLess(a, b) || LexLess(b, a)
    decreases |a|
  {
    if a != [] && b != [] && a[0] == b[0] {
      LexLessTotal(a[1..], b[1..]);
      if a[1..] == b[1..] {
        assert a == [a[0]] + a[1..] && b == [b[0]] + b[1..];
      }
    }
  }

  // ---- package path, for the slash-separated keys of a manifest ----

  /** Index of the last '/' in s, if any. */
  function LastSlash(s: string): (r: Option<nat>)
    ensures r.None? ==> '/' !in s
    ensures r.Some? ==> r.value < |s| && s[r.value] == '/' && '/' !in s[r.value + 1..]
  {
    if s == [] then None
    else if s[|s| - 1] == '/' then Some(|s| - 1)
    else
      var r := LastSlash(s[..|s| - 1]);
      assert r.Some? ==> s[r.value + 1..] == s[..|s| - 1][r.value + 1..] + [s[|s| - 1]];
      r
  }

  /** path.Dir for a clean key: everything before the last slash, "." when
      there is none, "/" when the only slash leads. */
  function Dir(key: string): string
  {
    match LastSlash(key)
    case None => "."
    case Some(i) => if i == 0 then "/" else key[..i]
  }

  /** path.Base for a clean key: everything after the last slash ("." for
      the empty string). */
  function Base(key: string): string
  {
    if key == [] then "."
    else match LastSlash(key)
      case None => key
      case Some(i) => key[i + 1..]
  }

  /** `p` is the clean path `root` itself or lies below it. */
  predicate InTree(root: string, p: string) {
    p == root || HasPrefix(p, root + "/")
  }

  /** filepath.Join for clean elements: the non-empty elements joined by "/". */
  function Join(parts: seq<string>): (r: string)
  {
    if parts == [] then ""
    else
      var init := Join(parts[..|parts| - 1]);
      var last := parts[|parts| - 1];
      if last == "" then init else if init == "" then last else init + "/" + last
  }
}
