/**
 * Vocabulary shared by the server controllers and the client pages:
 * optional request fields with JavaScript truthiness, the character classes
 * the regular expressions of the validators test for, `String.prototype.trim`
 * and `String.prototype.split` on a one-character separator.
 */
module Common {

  datatype Option<+T> = None | Some(value: T)

  /**
   * A request or URL field that may be absent (`undefined`). A request body
   * field sent as JSON `null` has no value of its own here.
   */
  type Field = Option<string>

  /** JavaScript truthiness of a possibly absent string: present and non-empty. */
  predicate Truthy(f: Field) {
    f.Some? && f.value != ""
  }

  /** The `x || fallback` idiom on a possibly absent string. */
  function OrElse(f: Field, fallback: string): (r: string)
    ensures Truthy(f) ==> r == f.value
    ensures !Truthy(f) ==> r == fallback
  {
    if Truthy(f) then f.value else fallback
  }

  // ---------------------------------------------------------------------------
  // Character classes (ASCII ranges, exactly as the bracket expressions say)

  /** `\d` and `[0-9]` */
  predicate IsDigit(c: char) { '0' <= c <= '9' }

  /** `[A-Z]` */
  predicate IsUpper(c: char) { 'A' <= c <= 'Z' }

  /** `[a-z]` */
  predicate IsLower(c: char) { 'a' <= c <= 'z' }

  /** `[A-Za-z]` */
  predicate IsLetter(c: char) { IsUpper(c) || IsLower(c) }

  /** `[A-Za-z0-9]`; its complement is `[^A-Za-z0-9]` */
  predicate IsAlnum(c: char) { IsLetter(c) || IsDigit(c) }

  /** The characters `.` refuses to match in a regular expression without the `s` flag. */
  predicate IsLineTerminator(c: char) {
    c == '\n' || c == '\r' || c == '\U{2028}' || c == '\U{2029}'
  }

  /** The white space and line terminators `String.prototype.trim` strips. */
  predicate IsTrimmable(c: char) {
    || c == '\t' || c == '\U{000B}' || c == '\U{000C}' || c == ' '
    || c == '\U{00A0}' || c == '\U{1680}' || ('\U{2000}' <= c <= '\U{200A}')
    || c == '\U{202F}' || c == '\U{205F}' || c == '\U{3000}' || c == '\U{FEFF}'
    || IsLineTerminator(c)
  }

  predicate HasDigit(s: string) { exists i :: 0 <= i < |s| && IsDigit(s[i]) }
  predicate HasUpper(s: string) { exists i :: 0 <= i < |s| && IsUpper(s[i]) }
  predicate HasLower(s: string) { exists i :: 0 <= i < |s| && IsLower(s[i]) }
  predicate HasLetter(s: string) { exists i :: 0 <= i < |s| && IsLetter(s[i]) }
  predicate HasNonAlnum(s: string) { exists i :: 0 <= i < |s| && !IsAlnum(s[i]) }

  predicate AllTrimmable(s: string) {
    forall i :: 0 <= i < |s| ==> IsTrimmable(s[i])
  }

  // ---------------------------------------------------------------------------
  // String.prototype.trim

  /** Drops leading white space, and nothing else. */
  function TrimStart(s: string): (r: string)
    ensures |r| <= |s| && r == s[|s| - |r|..]
    ensures AllTrimmable(s[..|s| - |r|])
    ensures r != [] ==> !IsTrimmable(r[0])
    ensures r == [] <==> AllTrimmable(s)
  {
    if s == [] || !IsTrimmable(s[0]) then s
    else
      FrontTrimmable(s, |s| - |TrimStart(s[1..])|);
      TrimStart(s[1..])
  }

  /** A white-space character before a white-space prefix of the rest. */
  lemma FrontTrimmable(s: string, n: int)
    requires 0 < n <= |s| && IsTrimmable(s[0]) && AllTrimmable(s[1..][..n - 1])
    ensures AllTrimmable(s[..n])
  {
    assert forall i :: 1 <= i < n ==> s[i] == s[1..][..n - 1][i - 1];
  }

  /** Drops trailing white space, and nothing else. */
  function TrimEnd(s: string): (r: string)
    ensures |r| <= |s| && r == s[..|r|]
    ensures AllTrimmable(s[|r|..])
    ensures r != [] ==> !IsTrimmable(r[|r| - 1])
    ensures r == [] <==> AllTrimmable(s)
  {
    if s != [] && IsTrimmable(s[|s| - 1]) then TrimEnd(s[..|s| - 1]) else s
  }

  /** `r` occurs in `s` starting at index `k`. */
  predicate SliceAt(s: string, r: string, k: int) {
    0 <= k <= |s| - |r| && r == s[k..k + |r|]
  }

  /** `r` occurs in `s` at index `k` and everything around it is white space. */
  predicate TrimmedAt(s: string, r: string, k: int) {
    SliceAt(s, r, k) && AllTrimmable(s[..k]) && AllTrimmable(s[k + |r|..])
  }

  /** `s.trim()`: `s` less the white space at either end. */
  function Trim(s: string): (r: string)
    ensures exists k :: TrimmedAt(s, r, k)
    ensures r == [] <==> AllTrimmable(s)
    ensures r != [] ==> !IsTrimmable(r[0]) && !IsTrimmable(r[|r| - 1])
  {
    var t := TrimStart(s);
    var r := TrimEnd(t);
    TrimmedTwice(s, t, r);
    r
  }

  /** Stripping the front of `s` to `t`, then the back of `t` to `r`, leaves `r` trimmed out of `s`. */
  lemma TrimmedTwice(s: string, t: string, r: string)
    requires |t| <= |s| && t == s[|s| - |t|..] && AllTrimmable(s[..|s| - |t|])
    requires |r| <= |t| && r == t[..|r|] && AllTrimmable(t[|r|..])
    ensures TrimmedAt(s, r, |s| - |t|)
  {
    var k := |s| - |t|;
    assert s[k + |r|..] == t[|r|..];
  }

  /** Nothing but white space: what `!s.trim()` tests (see `BlankIsEmptyTrim`). */
  predicate IsBlank(s: string) {
    AllTrimmable(s)
  }

  lemma BlankIsEmptyTrim(s: string)
    ensures IsBlank(s) <==> Trim(s) == []
  {
  }

  // ---------------------------------------------------------------------------
  // String.prototype.split with a one-character separator

  /** The pieces between separators, in order; an empty string gives `[""]`. */
  function Split(s: string, sep: char): (parts: seq<string>)
    ensures |parts| >= 1
    ensures forall i :: 0 <= i < |parts| ==> sep !in parts[i]
  {
    if s == [] then [[]]
    else
      var rest := Split(s[1..], sep);
      if s[0] == sep then [[]] + rest
      else [[s[0]] + rest[0]] + rest[1..]
  }

  /** `parts.join(sep)` */
  function Join(parts: seq<string>, sep: char): string
    requires |parts| >= 1
  {
    if |parts| == 1 then parts[0] else parts[0] + [sep] + Join(parts[1..], sep)
  }

  lemma {:induction false} JoinSplit(s: string, sep: char)
    ensures Join(Split(s, sep), sep) == s
  {
    if s != [] {
      var rest := Split(s[1..], sep);
      JoinSplit(s[1..], sep);
      if s[0] == sep {
        assert Split(s, sep) == [[]] + rest;
        assert (([[]] + rest)[1..]) == rest;
      } else {
        var parts := [[s[0]] + rest[0]] + rest[1..];
        assert Split(s, sep) == parts;
        if |rest| == 1 {
          assert Join(parts, sep) == [s[0]] + rest[0];
        } else {
          assert parts[1..] == rest[1..];
          assert Join(rest, sep) == rest[0] + [sep] + Join(rest[1..], sep);
        }
      }
    }
  }

  /** The first part of a join is its prefix, followed by the separator when there is more. */
  lemma JoinHead(parts: seq<string>, sep: char)
    requires |parts| >= 1
    ensures parts[0] <= Join(parts, sep)
    ensures |parts| == 1 ==> Join(parts, sep) == parts[0]
    ensures |parts| > 1 ==> |parts[0]| < |Join(parts, sep)| && Join(parts, sep)[|parts[0]|] == sep
  {
    if |parts| > 1 {
      assert Join(parts, sep) == parts[0] + [sep] + Join(parts[1..], sep);
    }
  }

  /** Splitting a piece free of the separator gives that piece alone. */
  lemma {:induction false} SplitNoSeparator(s: string, sep: char)
    requires sep !in s
    ensures Split(s, sep) == [s]
  {
    if s != [] {
      assert s[0] != sep;
      assert sep !in s[1..] by {
        forall i | 0 <= i < |s[1..]| ensures s[1..][i] != sep {
          assert s[1..][i] == s[i + 1];
        }
      }
      SplitNoSeparator(s[1..], sep);
      assert [s[0]] + s[1..] == s;
    }
  }

  /** A first piece free of the separator is split off exactly. */
  lemma {:induction false} SplitHead(x: string, sep: char, y: string)
    requires sep !in x
    ensures Split(x + [sep] + y, sep) == [x] + Split(y, sep)
  {
    var s := x + [sep] + y;
    if x == [] {
      assert s[0] == sep && s[1..] == y;
    } else {
      assert s[0] == x[0] && x[0] != sep;
      assert sep !in x[1..] by {
        forall i | 0 <= i < |x[1..]| ensures x[1..][i] != sep {
          assert x[1..][i] == x[i + 1];
        }
      }
      assert s[1..] == x[1..] + [sep] + y;
      SplitHead(x[1..], sep, y);
      assert [x[0]] + x[1..] == x;
    }
  }
}
