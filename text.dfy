/** String operations with the semantics of the JavaScript built-ins the
    application uses: `trim`, `split` on one character, `join`, `startsWith`,
    `includes`, and the decimal rendering of a number inside a template
    literal. Strings are sequences of characters. */
module Text {

  /** ECMAScript WhiteSpace and LineTerminator characters: what
      `String.prototype.trim` removes. */
  predicate IsSpace(c: char) {
    || c == '\t' || c == '\n' || c == '\U{B}' || c == '\U{C}' || c == '\r'
    || c == ' ' || c == '\U{A0}' || c == '\U{1680}'
    || ('\U{2000}' <= c <= '\U{200A}')
    || c == '\U{2028}' || c == '\U{2029}' || c == '\U{202F}' || c == '\U{205F}'
    || c == '\U{3000}' || c == '\U{FEFF}'
  }

  /** A string is blank when it holds nothing but whitespace: JavaScript's
      `!s.trim()`. */
  predicate IsBlank(s: string) {
    forall i :: 0 <= i < |s| ==> IsSpace(s[i])
  }

  /** `s.trimStart()`: the suffix left after dropping leading whitespace. */
  function TrimStart(s: string): (r: string)
    ensures |r| <= |s| && r == s[|s| - |r|..]
    ensures forall i :: 0 <= i < |s| - |r| ==> IsSpace(s[i])
    ensures r == [] || !IsSpace(r[0])
  {
    if |s| > 0 && IsSpace(s[0]) then TrimStart(s[1..]) else s
  }

  /** `s.trimEnd()`: the prefix left after dropping trailing whitespace. */
  function TrimEnd(s: string): (r: string)
    ensures |r| <= |s| && r == s[..|r|]
    ensures forall i :: |r| <= i < |s| ==> IsSpace(s[i])
    ensures r == [] || !IsSpace(r[|r| - 1])
  {
    if |s| > 0 && IsSpace(s[|s| - 1]) then TrimEnd(s[..|s| - 1]) else s
  }

  /** `s.trim()`. */
  function Trim(s: string): string {
    TrimEnd(TrimStart(s))
  }

  /** `s.trim()` is the empty (falsy) string exactly when `s` is blank. */
  lemma TrimEmptyIffBlank(s: string)
    ensures Trim(s) == [] <==> IsBlank(s)
  {
    var t := TrimStart(s);
    if Trim(s) == [] {
    } else {
      var k :| 0 <= k < |Trim(s)|;
      assert Trim(s)[k] == t[k];
      if IsSpace(t[0]) {
        assert false;
      }
      assert s[|s| - |t|] == t[0];
    }
  }

  /** A string with no surrounding whitespace trims to itself. */
  lemma TrimIdentity(s: string)
    requires s == [] || (!IsSpace(s[0]) && !IsSpace(s[|s| - 1]))
    ensures Trim(s) == s
  {
  }

  /** `s.startsWith(p)`. */
  predicate StartsWith(s: string, p: string) {
    |p| <= |s| && s[..|p|] == p
  }

  /** A string that starts with a non-empty prefix starts with its first
      character. */
  lemma StartsWithHead(s: string, p: string)
    requires |p| > 0 && StartsWith(s, p)
    ensures |s| > 0 && s[0] == p[0]
  {
    assert s[..|p|][0] == s[0];
  }

  /** `s.split(sep)` for a one-character separator: the pieces between the
      separators, always at least one. */
  function Split(s: string, sep: char): (r: seq<string>)
    ensures |r| >= 1
    ensures forall i :: 0 <= i < |r| ==> sep !in r[i]
  {
    if |s| == 0 then [""]
    else
      var rest := Split(s[1..], sep);
      if s[0] == sep then [""] + rest
      else [[s[0]] + rest[0]] + rest[1..]
  }

  /** `parts.join(sep)` for a one-character separator. */
  function Join(parts: seq<string>, sep: char): string {
    if |parts| == 0 then ""
    else if |parts| == 1 then parts[0]
    else parts[0] + [sep] + Join(parts[1..], sep)
  }

  /** Splitting and joining again on the same separator restores the string. */
  lemma {:induction false} JoinSplit(s: string, sep: char)
    ensures Join(Split(s, sep), sep) == s
  {
    if |s| > 0 {
      var rest := Split(s[1..], sep);
      JoinSplit(s[1..], sep);
      if s[0] == sep {
        assert Split(s, sep) == [""] + rest;
        assert ([""] + rest)[1..] == rest;
      } else {
        var parts := [[s[0]] + rest[0]] + rest[1..];
        assert Split(s, sep) == parts;
        if |rest| == 1 {
          assert Join(parts, sep) == [s[0]] + rest[0];
        } else {
          assert parts[1..] == rest[1..];
          assert Join(rest, sep) == rest[0] + [sep] + Join(rest[1..], sep);
        }
        assert s == [s[0]] + s[1..];
      }
    }
  }

  /** A string without the separator splits into itself alone. */
  lemma {:induction false} SplitNoSeparator(s: string, sep: char)
    requires sep !in s
    ensures Split(s, sep) == [s]
  {
    if |s| > 0 {
      assert sep !in s[1..];
      SplitNoSeparator(s[1..], sep);
      assert s == [s[0]] + s[1..];
    }
  }

  /** Splitting `a + sep + b` splits `a` and `b` separately. */
  lemma {:induction false} SplitConcat(a: string, b: string, sep: char)
    ensures Split(a + [sep] + b, sep) == Split(a, sep) + Split(b, sep)
    decreases |a|
  {
    if |a| == 0 {
      assert a + [sep] + b == [sep] + b;
      SplitCons(sep, b, sep);
    } else {
      SplitConcat(a[1..], b, sep);
      assert a + [sep] + b == [a[0]] + (a[1..] + [sep] + b);
      assert a == [a[0]] + a[1..];
      SplitConcatStep(a[0], a[1..], Split(a[1..] + [sep] + b, sep), Split(b, sep), sep);
    }
  }

  /** The inductive step of `SplitConcat`: putting one character in front of
      a string whose pieces are `front` followed by `back`. */
  lemma SplitConcatStep(c: char, t: string, whole: seq<string>, back: seq<string>, sep: char)
    requires whole == Split(t, sep) + back
    ensures SplitStep(c, whole, sep) == SplitStep(c, Split(t, sep), sep) + back
  {
    var front := Split(t, sep);
    if c != sep {
      assert whole[0] == front[0];
      assert whole[1..] == front[1..] + back;
    }
  }

  /** The pieces of `[c] + t`, given the pieces of `t`. */
  function SplitStep(c: char, rest: seq<string>, sep: char): seq<string>
    requires |rest| >= 1
  {
    if c == sep then [""] + rest else [[c] + rest[0]] + rest[1..]
  }

  /** One step of `Split`: a leading separator closes an empty piece, any
      other character joins the first piece of the rest. */
  lemma SplitCons(c: char, t: string, sep: char)
    ensures Split([c] + t, sep) == SplitStep(c, Split(t, sep), sep)
  {
    assert ([c] + t)[1..] == t;
  }

  /** Joining the leading pieces and then appending the last one is joining
      all of them. */
  lemma {:induction false} JoinSnoc(parts: seq<string>, sep: char)
    requires |parts| >= 2
    ensures Join(parts, sep) == Join(parts[..|parts| - 1], sep) + [sep] + parts[|parts| - 1]
  {
    if |parts| > 2 {
      JoinSnoc(parts[1..], sep);
      assert parts[1..][..|parts| - 2] == parts[..|parts| - 1][1..];
    }
  }

  /** A string holding the separator splits into at least two pieces. */
  lemma {:induction false} SplitAtSeparator(s: string, sep: char)
    requires sep in s
    ensures |Split(s, sep)| >= 2
  {
    if s[0] != sep {
      assert sep in s[1..] by {
        var k :| 0 <= k < |s| && s[k] == sep;
        assert s[1..][k - 1] == sep;
      }
      SplitAtSeparator(s[1..], sep);
    }
  }

  /** `parts.slice(0, -1).join('/')` and `parts.at(-1)` of
      `path.split('/')`: the directory part and the last component. The two
      joined with a separator give the path back. */
  function SplitPath(path: string): (r: (string, string))
    ensures '/' !in r.1
    ensures '/' !in path ==> r == ("", path)
    ensures '/' in path ==> r.0 + "/" + r.1 == path
  {
    var parts := Split(path, '/');
    if '/' in path then
      SplitAtSeparator(path, '/');
      JoinSnoc(parts, '/');
      JoinSplit(path, '/');
      (Join(parts[..|parts| - 1], '/'), parts[|parts| - 1])
    else
      SplitNoSeparator(path, '/');
      (Join(parts[..|parts| - 1], '/'), parts[|parts| - 1])
  }

  /** `toUpperCase()` of one character, for the ASCII letters. */
  function ToUpper(c: char): (u: char)
    ensures 'a' <= c <= 'z' ==> 'A' <= u <= 'Z' && u as int - c as int == 'A' as int - 'a' as int
    ensures !('a' <= c <= 'z') ==> u == c
  {
    if 'a' <= c <= 'z' then (c as int - 'a' as int + 'A' as int) as char else c
  }

  /** The character of a decimal digit. */
  function DigitChar(d: nat): (c: char)
    requires d < 10
    ensures '0' <= c <= '9'
  {
    "0123456789"[d]
  }

  /** The value of a decimal digit character. */
  function DigitValue(c: char): nat
    requires '0' <= c <= '9'
  {
    (c as int - '0' as int) as nat
  }

  predicate IsDigits(s: string) {
    forall i :: 0 <= i < |s| ==> '0' <= s[i] <= '9'
  }

  /** The decimal rendering of `n`, as `${n}` produces it: no sign and no
      leading zeros. */
  function NatToString(n: nat): (r: string)
    ensures |r| >= 1 && IsDigits(r)
    ensures r[0] == '0' ==> n == 0
  {
    if n < 10 then [DigitChar(n)] else NatToString(n / 10) + [DigitChar(n % 10)]
  }

  /** The value of a string of decimal digits. */
  function ParseDigits(s: string): nat
    requires IsDigits(s)
  {
    if |s| == 0 then 0 else 10 * ParseDigits(s[..|s| - 1]) + DigitValue(s[|s| - 1])
  }

  /** Reading the decimal rendering of `n` back gives `n`. */
  lemma {:induction false} ParseNatToString(n: nat)
    ensures ParseDigits(NatToString(n)) == n
  {
    if n >= 10 {
      var s := NatToString(n);
      ParseNatToString(n / 10);
      assert s[..|s| - 1] == NatToString(n / 10);
      assert DigitValue(s[|s| - 1]) == n % 10 by {
        assert s[|s| - 1] == DigitChar(n % 10);
      }
    } else {
      assert DigitValue(DigitChar(n)) == n;
      assert NatToString(n)[..0] == [];
    }
  }

  /** Distinct numbers render as distinct strings. */
  lemma NatToStringInjective(m: nat, n: nat)
    requires NatToString(m) == NatToString(n)
    ensures m == n
  {
    ParseNatToString(m);
    ParseNatToString(n);
  }

  /** Of two splittings of one string at a separator, the longer tail
      holds the other splitting's separator. */
  lemma SeparatorInLongerTail(a: string, b: string, d: string, e: string, sep: char)
    requires a + [sep] + d == b + [sep] + e
    requires |d| < |e|
    ensures sep in e
  {
    var x := a + [sep] + d;
    var k := |x| - |d| - 1;
    assert x[k] == sep;
    assert (b + [sep] + e)[k] == e[k - |b| - 1];
  }

  /** What follows the last separator is determined by the string: when
      neither tail holds the separator, equal strings have equal heads and
      equal tails. */
  lemma SameTailAfterLastSeparator(a: string, b: string, d: string, e: string, sep: char)
    requires sep !in d && sep !in e
    requires a + [sep] + d == b + [sep] + e
    ensures a == b && d == e
  {
    var x := a + [sep] + d;
    var y := b + [sep] + e;
    if |d| < |e| {
      SeparatorInLongerTail(a, b, d, e, sep);
      assert false;
    } else if |e| < |d| {
      SeparatorInLongerTail(b, a, e, d, sep);
      assert false;
    }
    assert d == x[|x| - |d|..];
    assert e == y[|y| - |e|..];
    assert a == x[..|a|];
    assert b == y[..|b|];
  }

  /** Keys of the form `${name}-${index}` differ whenever the indexes
      differ, whatever the names. */
  lemma IndexedKeysDistinct(a: string, b: string, i: nat, j: nat)
    requires i != j
    ensures a + "-" + NatToString(i) != b + "-" + NatToString(j)
  {
    if a + "-" + NatToString(i) == b + "-" + NatToString(j) {
      assert '-' !in NatToString(i) && '-' !in NatToString(j);
      SameTailAfterLastSeparator(a, b, NatToString(i), NatToString(j), '-');
      NatToStringInjective(i, j);
    }
  }

  /** Keys of the form `${prefix}${index}` differ whenever the indexes
      differ. */
  lemma NumberedKeysDistinct(prefix: string, i: nat, j: nat)
    requires i != j
    ensures prefix + NatToString(i) != prefix + NatToString(j)
  {
    if prefix + NatToString(i) == prefix + NatToString(j) {
      assert (prefix + NatToString(i))[|prefix|..] == NatToString(i);
      assert (prefix + NatToString(j))[|prefix|..] == NatToString(j);
      NatToStringInjective(i, j);
    }
  }

  /** `${n} ${noun}${n !== 1 ? 's' : ''}`: a count with its noun, plural
      unless the count is one. */
  function Counted(n: nat, noun: string): (r: string)
    ensures |r| > |NatToString(n)| && r[..|NatToString(n)|] == NatToString(n)
    ensures r[|r| - 1] == 's' <==> n != 1 || (|noun| > 0 && noun[|noun| - 1] == 's')
    ensures n == 1 ==> r == "1 " + noun
  {
    NatToString(n) + " " + noun + if n != 1 then "s" else ""
  }
}
