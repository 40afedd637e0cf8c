/** The alias generator of the domain models: snake_case field names become camelCase. */
module BaseModel {

  const SEPARATOR: char := '_'

  /** The pieces of `s` between occurrences of `sep`, empty pieces kept, as Python's `str.split(sep)`. */
  function Split(s: string, sep: char): (parts: seq<string>)
    ensures |parts| >= 1
    ensures forall i :: 0 <= i < |parts| ==> sep !in parts[i]
    ensures Join(parts, sep) == s
    decreases |s|
  {
    if |s| == 0 then [""]
    else
      var rest := Split(s[1..], sep);
      if s[0] == sep then
        assert ([""] + rest)[1..] == rest;
        [""] + rest
      else
        var parts := [[s[0]] + rest[0]] + rest[1..];
        assert parts[1..] == rest[1..];
        assert s == [s[0]] + s[1..];
        parts
  }

  /** The inverse of Split: the pieces glued back together with `sep` between them. */
  function Join(parts: seq<string>, sep: char): string
    requires |parts| >= 1
  {
    if |parts| == 1 then parts[0] else parts[0] + [sep] + Join(parts[1..], sep)
  }

  /** ASCII upper-casing of one character; every other character is left alone. */
  function Upper(c: char): (u: char)
    ensures u == c || ('a' <= c <= 'z' && 'A' <= u <= 'Z')
  {
    if 'a' <= c <= 'z' then (c as int - 32) as char else c
  }

  /** ASCII lower-casing of one character; every other character is left alone. */
  function Lower(c: char): (l: char)
    ensures l == c || ('A' <= c <= 'Z' && 'a' <= l <= 'z')
  {
    if 'A' <= c <= 'Z' then (c as int + 32) as char else c
  }

  /** Python's `str.capitalize`: first character upper-cased, all later ones lower-cased. */
  function Capitalize(w: string): (r: string)
    ensures |r| == |w|
    ensures |w| > 0 ==> r[0] == Upper(w[0])
    ensures forall i :: 1 <= i < |w| ==> r[i] == Lower(w[i])
  {
    if |w| == 0 then "" else [Upper(w[0])] + seq(|w| - 1, i requires 0 <= i < |w| - 1 => Lower(w[i + 1]))
  }

  /** `"".join(f(word) for word in words)`. */
  function ConcatMap(f: string -> string, words: seq<string>): string
  {
    if words == [] then "" else f(words[0]) + ConcatMap(f, words[1..])
  }

  /** `"".join(word.capitalize() for word in words)`. */
  function CapitalizeAll(words: seq<string>): string
  {
    ConcatMap(Capitalize, words)
  }

  /** convert_field_to_camel_case: the first `_`-separated word verbatim, every later one capitalised. */
  function ConvertFieldToCamelCase(s: string): string
  {
    var words := Split(s, SEPARATOR);
    words[0] + CapitalizeAll(words[1..])
  }

  /** Number of occurrences of `c` in `s`. */
  function Count(s: string, c: char): nat
  {
    if s == [] then 0 else (if s[0] == c then 1 else 0) + Count(s[1..], c)
  }

  /** Total length of a list of words. */
  function SumLengths(words: seq<string>): nat
  {
    if words == [] then 0 else |words[0]| + SumLengths(words[1..])
  }

  lemma {:induction false} SplitWithoutSeparator(s: string, sep: char)
    requires sep !in s
    ensures Split(s, sep) == [s]
    decreases |s|
  {
    if |s| > 0 {
      SplitWithoutSeparator(s[1..], sep);
      assert s == [s[0]] + s[1..];
    }
  }

  /** The first word is the part of `s` before its first separator. */
  lemma {:induction false} SplitHead(parts: seq<string>, sep: char)
    requires |parts| >= 1
    requires forall i :: 0 <= i < |parts| ==> sep !in parts[i]
    ensures parts[0] <= Join(parts, sep)
    ensures |parts| > 1 <==> |parts[0]| < |Join(parts, sep)|
    ensures |parts| > 1 ==> Join(parts, sep)[|parts[0]|] == sep
  {
  }

  /** A string with no `_` is its own camelCase form. */
  lemma ConvertWithoutUnderscore(s: string)
    requires SEPARATOR !in s
    ensures ConvertFieldToCamelCase(s) == s
  {
    SplitWithoutSeparator(s, SEPARATOR);
  }

  /** The output starts with the input's text up to its first `_`, unchanged. */
  lemma FirstWordKept(s: string)
    ensures var w := Split(s, SEPARATOR)[0];
      && SEPARATOR !in w
      && w <= s
      && (|w| < |s| ==> s[|w|] == SEPARATOR)
      && w <= ConvertFieldToCamelCase(s)
  {
    SplitHead(Split(s, SEPARATOR), SEPARATOR);
  }

  lemma {:induction false} CapitalizeAllHasNoSeparator(words: seq<string>)
    requires forall i :: 0 <= i < |words| ==> SEPARATOR !in words[i]
    ensures SEPARATOR !in CapitalizeAll(words)
  {
    if words != [] {
      CapitalizeAllHasNoSeparator(words[1..]);
      var c := Capitalize(words[0]);
      forall i | 0 <= i < |c| ensures c[i] != SEPARATOR {
        assert words[0][i] != SEPARATOR;
      }
    }
  }

  /** No `_` survives the conversion. */
  lemma NoSeparatorInOutput(s: string)
    ensures SEPARATOR !in ConvertFieldToCamelCase(s)
  {
    var words := Split(s, SEPARATOR);
    CapitalizeAllHasNoSeparator(words[1..]);
  }

  /** Converting twice is the same as converting once. */
  lemma ConvertIdempotent(s: string)
    ensures ConvertFieldToCamelCase(ConvertFieldToCamelCase(s)) == ConvertFieldToCamelCase(s)
  {
    NoSeparatorInOutput(s);
    ConvertWithoutUnderscore(ConvertFieldToCamelCase(s));
  }

  lemma {:induction false} SplitLengths(s: string, sep: char)
    ensures SumLengths(Split(s, sep)) == |s| - Count(s, sep)
    decreases |s|
  {
    if |s| > 0 {
      SplitLengths(s[1..], sep);
      var rest := Split(s[1..], sep);
      if s[0] == sep {
        assert ([""] + rest)[1..] == rest;
      } else {
        var parts := [[s[0]] + rest[0]] + rest[1..];
        assert parts[1..] == rest[1..];
        assert SumLengths(rest) == |rest[0]| + SumLengths(rest[1..]);
      }
    }
  }

  lemma {:induction false} CapitalizeAllLength(words: seq<string>)
    ensures |CapitalizeAll(words)| == SumLengths(words)
  {
    if words != [] {
      CapitalizeAllLength(words[1..]);
    }
  }

  /** Each `_` is dropped and every other character is kept, so the length falls by the number of `_`. */
  lemma ConvertLength(s: string)
    ensures |ConvertFieldToCamelCase(s)| == |s| - Count(s, SEPARATOR)
  {
    var words := Split(s, SEPARATOR);
    SplitLengths(s, SEPARATOR);
    CapitalizeAllLength(words[1..]);
  }

  lemma {:induction false} SplitAppend(s: string, sep: char, w: string)
    requires sep !in w
    ensures Split(s + [sep] + w, sep) == Split(s, sep) + [w]
    decreases |s|
  {
    if |s| == 0 {
      assert s + [sep] + w == [sep] + w;
      SplitWithoutSeparator(w, sep);
    } else {
      assert s + [sep] + w == [s[0]] + (s[1..] + [sep] + w);
      SplitAppend(s[1..], sep, w);
    }
  }

  lemma {:induction false} ConcatMapAppend(f: string -> string, words: seq<string>, w: string)
    ensures ConcatMap(f, words + [w]) == ConcatMap(f, words) + f(w)
  {
    if words == [] {
      assert words + [w] == [w] && [w][1..] == [];
    } else {
      assert (words + [w])[1..] == words[1..] + [w];
      ConcatMapAppend(f, words[1..], w);
    }
  }

  /** Every word after a `_` is appended capitalised: with ConvertWithoutUnderscore this fixes the
      result on every input, word by word. */
  lemma LaterWordCapitalized(s: string, w: string)
    requires SEPARATOR !in w
    ensures ConvertFieldToCamelCase(s + [SEPARATOR] + w) == ConvertFieldToCamelCase(s) + Capitalize(w)
  {
    var words := Split(s, SEPARATOR);
    SplitAppend(s, SEPARATOR, w);
    assert (words + [w])[1..] == words[1..] + [w];
    ConcatMapAppend(Capitalize, words[1..], w);
  }

  /** An empty word (a trailing `_`, or one half of `__`) contributes nothing. */
  lemma TrailingSeparatorDropped(s: string)
    ensures ConvertFieldToCamelCase(s + [SEPARATOR]) == ConvertFieldToCamelCase(s)
  {
    LaterWordCapitalized(s, "");
    assert s + [SEPARATOR] + "" == s + [SEPARATOR];
  }

  lemma DoubleSeparatorAsSingle(s: string, w: string)
    requires SEPARATOR !in w
    ensures ConvertFieldToCamelCase(s + [SEPARATOR, SEPARATOR] + w) == ConvertFieldToCamelCase(s + [SEPARATOR] + w)
  {
    calc {
      ConvertFieldToCamelCase(s + [SEPARATOR, SEPARATOR] + w);
      { assert s + [SEPARATOR, SEPARATOR] + w == (s + [SEPARATOR]) + [SEPARATOR] + w; }
      ConvertFieldToCamelCase((s + [SEPARATOR]) + [SEPARATOR] + w);
      { LaterWordCapitalized(s + [SEPARATOR], w); }
      ConvertFieldToCamelCase(s + [SEPARATOR]) + Capitalize(w);
      { TrailingSeparatorDropped(s); }
      ConvertFieldToCamelCase(s) + Capitalize(w);
      { LaterWordCapitalized(s, w); }
      ConvertFieldToCamelCase(s + [SEPARATOR] + w);
    }
  }
}
