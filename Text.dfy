/**
 * The string operations the proxy applies to the `Authorization` header and to
 * decoded credentials: `str.startswith`, `str.split(sep)`, `str.split(sep, 1)`,
 * and ASCII text as bytes.
 */
module Text {
  import opened Wrappers

  /** `s.startswith(p)`: a literal, case-sensitive prefix test. */
  predicate StartsWith(s: string, p: string): (b: bool)
    ensures b <==> |p| <= |s| && forall i :: 0 <= i < |p| ==> s[i] == p[i]
  {
    |p| <= |s| && s[..|p|] == p
  }

  /** `s.endswith(p)`. */
  predicate EndsWith(s: string, p: string) {
    |p| <= |s| && s[|s| - |p|..] == p
  }

  /** The last element of a non-empty sequence (Python's `xs[-1]`). */
  function Last<T>(xs: seq<T>): T
    requires |xs| > 0
  {
    xs[|xs| - 1]
  }

  /**
   * `s.split(sep)` with an explicit one-character separator: every occurrence
   * of `sep` ends a field, empty fields are kept, and there is always at least
   * one field (`"".split(" ") == [""]`).
   */
  function Split(s: string, sep: char): (fields: seq<string>)
    ensures |fields| >= 1
    ensures forall i :: 0 <= i < |fields| ==> sep !in fields[i]
    decreases |s|
  {
    if |s| == 0 then [""]
    else
      var rest := Split(s[1..], sep);
      if s[0] == sep then [""] + rest
      else [[s[0]] + rest[0]] + rest[1..]
  }

  /** `sep.join(fields)`, the inverse of `Split`. */
  function Join(fields: seq<string>, sep: char): string
    decreases |fields|
  {
    if |fields| == 0 then ""
    else if |fields| == 1 then fields[0]
    else fields[0] + [sep] + Join(fields[1..], sep)
  }

  /** Splitting and re-joining gives back the original string. */
  lemma {:induction false} JoinSplit(s: string, sep: char)
    ensures Join(Split(s, sep), sep) == s
    decreases |s|
  {
    if |s| > 0 {
      var rest := Split(s[1..], sep);
      JoinSplit(s[1..], sep);
      if s[0] == sep {
        assert Split(s, sep) == [""] + rest;
        assert ([""] + rest)[1..] == rest;
      } else {
        var fields := Split(s, sep);
        assert fields == [[s[0]] + rest[0]] + rest[1..];
        if |rest| == 1 {
          assert fields == [[s[0]] + rest[0]];
        } else {
          assert fields[1..] == rest[1..];
          assert Join(rest, sep) == rest[0] + [sep] + Join(rest[1..], sep);
        }
      }
    }
  }

  /** A string without the separator is a single field. */
  lemma {:induction false} SplitNoSep(s: string, sep: char)
    requires sep !in s
    ensures Split(s, sep) == [s]
    decreases |s|
  {
    if |s| > 0 {
      assert sep !in s[1..] by {
        forall i | 0 <= i < |s[1..]| ensures s[1..][i] != sep { assert s[1..][i] == s[i + 1]; }
      }
      SplitNoSep(s[1..], sep);
      assert [s[0]] + s[1..] == s;
    }
  }

  /** A leading field `p` followed by the separator splits off as the first field. */
  lemma {:induction false} SplitLeadingField(p: string, rest: string, sep: char)
    requires sep !in p
    ensures Split(p + [sep] + rest, sep) == [p] + Split(rest, sep)
    decreases |p|
  {
    var s := p + [sep] + rest;
    if |p| == 0 {
      assert s[0] == sep && s[1..] == rest;
    } else {
      assert sep !in p[1..] by {
        forall i | 0 <= i < |p[1..]| ensures p[1..][i] != sep { assert p[1..][i] == p[i + 1]; }
      }
      SplitLeadingField(p[1..], rest, sep);
      assert s[1..] == p[1..] + [sep] + rest;
      assert s[0] == p[0] && s[0] != sep;
      assert [p[0]] + p[1..] == p;
    }
  }

  /** Three separator-free fields joined by the separator split back into those three. */
  lemma SplitThree(a: string, b: string, c: string, sep: char)
    requires sep !in a && sep !in b && sep !in c
    ensures Split(a + [sep] + b + [sep] + c, sep) == [a, b, c]
  {
    assert a + [sep] + b + [sep] + c == a + [sep] + (b + [sep] + c);
    SplitLeadingField(a, b + [sep] + c, sep);
    SplitLeadingField(b, c, sep);
    SplitNoSep(c, sep);
  }

  /** Joining fields that do not contain the separator and splitting again gives them back. */
  lemma {:induction false} SplitJoin(fields: seq<string>, sep: char)
    requires |fields| >= 1
    requires forall i :: 0 <= i < |fields| ==> sep !in fields[i]
    ensures Split(Join(fields, sep), sep) == fields
    decreases |fields|
  {
    if |fields| == 1 {
      SplitNoSep(fields[0], sep);
    } else {
      SplitJoin(fields[1..], sep);
      SplitLeadingField(fields[0], Join(fields[1..], sep), sep);
      assert [fields[0]] + fields[1..] == fields;
    }
  }

  /**
   * The first field is a prefix of the string, followed either by the end of
   * the string (no separator at all) or by the separator and the other fields.
   */
  lemma {:induction false} SplitFirstField(s: string, sep: char)
    ensures var f := Split(s, sep)[0];
      && StartsWith(s, f)
      && (|Split(s, sep)| == 1 <==> f == s)
      && (|f| < |s| ==> s[|f|] == sep && Split(s, sep)[1..] == Split(s[|f| + 1..], sep))
    decreases |s|
  {
    var fields := Split(s, sep);
    var f := fields[0];
    JoinSplit(s, sep);
    if |fields| == 1 {
      assert s == f;
    } else {
      var tail := Join(fields[1..], sep);
      assert s == f + [sep] + tail;
      assert s[..|f|] == f;
      assert s[|f| + 1..] == tail;
      SplitLeadingField(f, tail, sep);
      SplitJoin(fields[1..], sep);
      assert fields[1..] == Split(tail, sep);
    }
  }

  /**
   * The last field is a suffix of the string, preceded by the separator unless
   * it is the whole string.
   */
  lemma {:induction false} SplitLastField(s: string, sep: char)
    ensures var f := Last(Split(s, sep));
      && EndsWith(s, f)
      && (|Split(s, sep)| == 1 ==> f == s)
      && (|Split(s, sep)| > 1 ==> |f| < |s| && s[|s| - |f| - 1] == sep)
  {
    var fields := Split(s, sep);
    JoinSplit(s, sep);
    if |fields| > 1 {
      var f := Last(fields);
      JoinLast(fields, sep);
      var front := Join(fields[..|fields| - 1], sep);
      assert s == front + [sep] + f;
      assert s[|s| - |f|..] == f;
      assert s[|s| - |f| - 1] == sep;
    }
  }

  /** The last of several joined fields follows the final separator. */
  lemma {:induction false} JoinLast(fields: seq<string>, sep: char)
    requires |fields| > 1
    ensures Join(fields, sep) == Join(fields[..|fields| - 1], sep) + [sep] + Last(fields)
    decreases |fields|
  {
    if |fields| > 2 {
      var tail := fields[1..];
      JoinLast(tail, sep);
      assert tail[..|tail| - 1] == fields[..|fields| - 1][1..];
      assert Last(tail) == Last(fields);
    }
  }

  /**
   * `s.split(' ')[1]` for a string that starts with a one-word `scheme` and a
   * space: the text after that space, up to the next space or the end.
   */
  function FieldAfterScheme(s: string, scheme: string): (f: string)
    requires ' ' !in scheme
    requires StartsWith(s, scheme + " ")
    ensures |Split(s, ' ')| >= 2 && f == Split(s, ' ')[1]
    ensures ' ' !in f
    ensures StartsWith(s, scheme + " " + f)
    ensures |s| == |scheme| + 1 + |f| || s[|scheme| + 1 + |f|] == ' '
  {
    var rest := s[|scheme| + 1..];
    assert s == scheme + [' '] + rest;
    SplitLeadingField(scheme, rest, ' ');
    SplitFirstField(rest, ' ');
    var f := Split(rest, ' ')[0];
    assert s[..|scheme| + 1 + |f|] == scheme + " " + f;
    f
  }

  /** The field after the scheme is the word that follows it, whatever comes after that word. */
  lemma FieldAfterSchemeOf(scheme: string, t: string, rest: string)
    requires ' ' !in scheme && ' ' !in t
    requires rest == [] || rest[0] == ' '
    ensures StartsWith(scheme + " " + t + rest, scheme + " ")
    ensures FieldAfterScheme(scheme + " " + t + rest, scheme) == t
  {
    var s := scheme + " " + t + rest;
    assert s[..|scheme| + 1] == scheme + " ";
    assert s == scheme + [' '] + (t + rest);
    SplitLeadingField(scheme, t + rest, ' ');
    if rest == [] {
      assert t + rest == t;
      SplitNoSep(t, ' ');
    } else {
      assert t + rest == t + [' '] + rest[1..];
      SplitLeadingField(t, rest[1..], ' ');
    }
  }

  /** `s.index(c)`: the position of the first occurrence of `c`. */
  function IndexOf(s: string, c: char): (i: nat)
    requires c in s
    ensures i < |s| && s[i] == c && c !in s[..i]
  {
    if s[0] == c then 0
    else
      var j := IndexOf(s[1..], c);
      assert s[..j + 1] == [s[0]] + s[1..][..j];
      j + 1
  }

  /**
   * `s.split(sep, 1)`: one field when `sep` does not occur, otherwise the text
   * before the first `sep` and everything after it (which may contain `sep`).
   */
  function SplitOnce(s: string, sep: char): (parts: seq<string>)
    ensures |parts| == 1 <==> sep !in s
    ensures |parts| == 1 ==> parts[0] == s
    ensures |parts| != 1 ==> |parts| == 2 && sep !in parts[0] && s == parts[0] + [sep] + parts[1]
  {
    if sep !in s then [s]
    else
      var i := IndexOf(s, sep);
      assert s == s[..i] + [sep] + s[i + 1..];
      [s[..i], s[i + 1..]]
  }

  /** A string with one separator-free leading field splits once into that field and the rest. */
  lemma SplitOnceLeadingField(u: string, rest: string, sep: char)
    requires sep !in u
    ensures SplitOnce(u + [sep] + rest, sep) == [u, rest]
  {
    var s := u + [sep] + rest;
    assert s[|u|] == sep;
    var parts := SplitOnce(s, sep);
    assert parts[0] == s[..|u|] == u;
    assert parts[1] == s[|u| + 1..] == rest;
  }

  /** A byte, as an integer in 0..255. */
  type Byte = b: int | 0 <= b < 256

  /** Every character of `s` is 7-bit ASCII. */
  predicate IsAscii(s: string) {
    forall i :: 0 <= i < |s| ==> s[i] as int < 128
  }

  /** The bytes of an ASCII string (its UTF-8 encoding). */
  function AsciiBytes(s: string): (b: seq<Byte>)
    requires IsAscii(s)
    ensures |b| == |s|
    ensures forall i :: 0 <= i < |s| ==> b[i] == s[i] as int
  {
    if |s| == 0 then []
    else
      assert IsAscii(s[1..]) by {
        forall i | 0 <= i < |s[1..]| ensures s[1..][i] as int < 128 { assert s[1..][i] == s[i + 1]; }
      }
      [s[0] as int] + AsciiBytes(s[1..])
  }

  /**
   * `bytes.decode('utf-8')` on ASCII input: each byte below 128 is one
   * character; any other byte makes the decoding fail.
   */
  function DecodeAscii(b: seq<Byte>): (r: Option<string>)
    ensures r.Some? <==> forall i :: 0 <= i < |b| ==> b[i] < 128
    ensures r.Some? ==> |r.value| == |b| && IsAscii(r.value)
    ensures r.Some? ==> forall i :: 0 <= i < |b| ==> r.value[i] as int == b[i]
  {
    if |b| == 0 then Some("")
    else if b[0] >= 128 then None
    else
      match DecodeAscii(b[1..])
      case None => None
      case Some(t) => Some([b[0] as char] + t)
  }

  /** Decoding the bytes of an ASCII string gives the string back. */
  lemma {:induction false} DecodeAsciiBytes(s: string)
    requires IsAscii(s)
    ensures DecodeAscii(AsciiBytes(s)) == Some(s)
    decreases |s|
  {
    if |s| > 0 {
      assert IsAscii(s[1..]) by {
        forall i | 0 <= i < |s[1..]| ensures s[1..][i] as int < 128 { assert s[1..][i] == s[i + 1]; }
      }
      DecodeAsciiBytes(s[1..]);
      assert AsciiBytes(s)[1..] == AsciiBytes(s[1..]);
      assert [s[0]] + s[1..] == s;
    }
  }
}
