/** The two functions of Go's `strings` package the HTTP layer relies on:
    `Split` with a one-character separator, and `TrimPrefix`. */
module GoStrings {

  /** How many times `c` occurs in `s`. */
  function Count(s: string, c: char): nat {
    if |s| == 0 then 0 else (if s[0] == c then 1 else 0) + Count(s[1..], c)
  }

  lemma {:induction false} CountZero(s: string, c: char)
    ensures Count(s, c) == 0 <==> c !in s
  {
    if |s| > 0 {
      CountZero(s[1..], c);
      assert s == [s[0]] + s[1..];
    }
  }

  /** `strings.Join` with a one-character separator. */
  function Join(parts: seq<string>, sep: char): string {
    if |parts| == 0 then ""
    else if |parts| == 1 then parts[0]
    else parts[0] + [sep] + Join(parts[1..], sep)
  }

  /** `strings.Split(s, sep)` for a one-character `sep`: the pieces between
      the separators. There is always one more piece than separators; the
      empty string gives one empty piece; adjacent separators give empty
      pieces; no piece holds the separator; and joining the pieces back
      restores `s`. */
  function Split(s: string, sep: char): (parts: seq<string>)
    ensures |parts| == Count(s, sep) + 1
    ensures forall i :: 0 <= i < |parts| ==> sep !in parts[i]
    ensures Join(parts, sep) == s
    decreases |s|
  {
    if |s| == 0 then [""]
    else
      var rest := Split(s[1..], sep);
      if s[0] == sep then
        assert Join([""] + rest, sep) == [sep] + Join(rest, sep) by {
          assert ([""] + rest)[1..] == rest;
        }
        assert s == [s[0]] + s[1..];
        [""] + rest
      else
        var parts := [[s[0]] + rest[0]] + rest[1..];
        assert parts[1..] == rest[1..];
        assert Join(parts, sep) == [s[0]] + Join(rest, sep);
        assert s == [s[0]] + s[1..];
        parts
  }

  /** The first piece is a prefix of the joined string; the separator
      follows it and does not occur before it. */
  lemma FirstSeparator(parts: seq<string>, sep: char)
    requires |parts| > 1 && sep !in parts[0]
    ensures |Join(parts, sep)| > |parts[0]|
    ensures Join(parts, sep)[..|parts[0]|] == parts[0]
    ensures Join(parts, sep)[|parts[0]|] == sep
    ensures forall i :: 0 <= i < |parts[0]| ==> Join(parts, sep)[i] != sep
  {
    var s := Join(parts, sep);
    forall i | 0 <= i < |parts[0]|
      ensures s[i] != sep
    {
      assert s[i] == parts[0][i];
    }
  }

  /** A join of separator-free pieces holds the separator exactly when
      there are at least two pieces. */
  lemma JoinHasSeparator(parts: seq<string>, sep: char)
    requires |parts| > 0
    requires forall i :: 0 <= i < |parts| ==> sep !in parts[i]
    ensures sep in Join(parts, sep) <==> |parts| > 1
  {
    if |parts| > 1 {
      FirstSeparator(parts, sep);
    }
  }

  /** Joining is injective on separator-free pieces: the string determines
      its pieces. */
  lemma {:induction false} JoinInjective(p: seq<string>, q: seq<string>, sep: char)
    requires |p| > 0 && |q| > 0
    requires forall i :: 0 <= i < |p| ==> sep !in p[i]
    requires forall i :: 0 <= i < |q| ==> sep !in q[i]
    requires Join(p, sep) == Join(q, sep)
    ensures p == q
    decreases |p|
  {
    var s := Join(p, sep);
    JoinHasSeparator(p, sep);
    JoinHasSeparator(q, sep);
    if |p| == 1 {
      assert |q| == 1;
    } else {
      assert |q| > 1;
      FirstSeparator(p, sep);
      FirstSeparator(q, sep);
      assert |p[0]| == |q[0]|;
      assert p[0] == q[0];
      var tail := s[|p[0]| + 1..];
      assert Join(p[1..], sep) == tail;
      assert Join(q[1..], sep) == tail;
      JoinInjective(p[1..], q[1..], sep);
      assert p == [p[0]] + p[1..] && q == [q[0]] + q[1..];
    }
  }

  /** Splitting undoes joining separator-free pieces. */
  lemma SplitJoin(parts: seq<string>, sep: char)
    requires |parts| > 0
    requires forall i :: 0 <= i < |parts| ==> sep !in parts[i]
    ensures Split(Join(parts, sep), sep) == parts
  {
    JoinInjective(Split(Join(parts, sep), sep), parts, sep);
  }

  /** Two separator-free words around one separator split into exactly those
      two words. */
  lemma SplitTwoWords(a: string, b: string, sep: char)
    requires sep !in a && sep !in b
    ensures Split(a + [sep] + b, sep) == [a, b]
  {
    assert Join([a, b], sep) == a + [sep] + Join([b], sep);
    SplitJoin([a, b], sep);
  }

  /** `strings.TrimPrefix`: `s` without `prefix` when `s` starts with it,
      otherwise `s` unchanged. At most one copy is removed. */
  function TrimPrefix(s: string, prefix: string): (r: string)
    ensures prefix <= s ==> s == prefix + r
    ensures !(prefix <= s) ==> r == s
  {
    if |prefix| <= |s| && s[..|prefix|] == prefix then s[|prefix|..] else s
  }

  /** Trimming what was just prepended gives the rest back. */
  lemma TrimPrefixOfConcat(prefix: string, rest: string)
    ensures TrimPrefix(prefix + rest, prefix) == rest
  {
    assert prefix <= prefix + rest;
  }
}
