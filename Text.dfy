/** The .NET string operations the servers rely on, over `string` = `seq<char>`.
    `StringComparison.OrdinalIgnoreCase` compares characters after upper-casing them;
    only the ASCII letters are folded here. */
module Text {

  function ToUpper(c: char): char
  {
    if 'a' <= c <= 'z' then (c as int - 32) as char else c
  }

  function ToLower(c: char): char
  {
    if 'A' <= c <= 'Z' then (c as int + 32) as char else c
  }

  /** `string.ToLowerInvariant` */
  function ToLowerInvariant(s: string): (r: string)
    ensures |r| == |s|
    ensures forall i :: 0 <= i < |s| ==> r[i] == ToLower(s[i])
  {
    if s == [] then [] else [ToLower(s[0])] + ToLowerInvariant(s[1..])
  }

  /** `string.ToUpperInvariant`: the key under which a case-insensitive file system stores a path */
  function ToUpperInvariant(s: string): (r: string)
    ensures |r| == |s|
    ensures forall i :: 0 <= i < |s| ==> r[i] == ToUpper(s[i])
  {
    if s == [] then [] else [ToUpper(s[0])] + ToUpperInvariant(s[1..])
  }

  /** `a.Equals(b, StringComparison.OrdinalIgnoreCase)`, compared character by character */
  function EqualsIgnoreCase(a: string, b: string): (r: bool)
    ensures r <==> |a| == |b| && forall i :: 0 <= i < |a| ==> ToUpper(a[i]) == ToUpper(b[i])
  {
    if a == [] || b == [] then a == b
    else ToUpper(a[0]) == ToUpper(b[0]) && EqualsIgnoreCase(a[1..], b[1..])
  }

  /** Ordinal `s.StartsWith(prefix)` */
  predicate StartsWith(s: string, prefix: string)
  {
    |prefix| <= |s| && s[..|prefix|] == prefix
  }

  /** Two prefixes of one string: the shorter is a prefix of the longer. */
  lemma PrefixesOfOneString(s: string, a: string, b: string)
    requires StartsWith(s, a) && StartsWith(s, b)
    ensures StartsWith(a, b) || StartsWith(b, a)
  {
    if |a| <= |b| {
      assert b[..|a|] == s[..|b|][..|a|];
    } else {
      assert a[..|b|] == s[..|a|][..|b|];
    }
  }

  /** `s.StartsWith(prefix, StringComparison.OrdinalIgnoreCase)` */
  function StartsWithIgnoreCase(s: string, prefix: string): (r: bool)
    ensures r <==> |prefix| <= |s| && forall i :: 0 <= i < |prefix| ==> ToUpper(s[i]) == ToUpper(prefix[i])
  {
    |prefix| <= |s| && EqualsIgnoreCase(s[..|prefix|], prefix)
  }

  /** Ordinal `s.EndsWith(suffix)` */
  predicate EndsWith(s: string, suffix: string)
  {
    |suffix| <= |s| && s[|s| - |suffix|..] == suffix
  }

  /** `s.TrimEnd(c)`: removes every trailing occurrence of `c` */
  function TrimEnd(s: string, c: char): (r: string)
    ensures |r| <= |s| && r == s[..|r|]
    ensures r == [] || r[|r| - 1] != c
    ensures forall i :: |r| <= i < |s| ==> s[i] == c
  {
    if s == [] || s[|s| - 1] != c then s else TrimEnd(s[..|s| - 1], c)
  }

  /** `s.TrimStart(c)`: removes every leading occurrence of `c` */
  function TrimStart(s: string, c: char): (r: string)
    ensures |r| <= |s| && r == s[|s| - |r|..]
    ensures r == [] || r[0] != c
    ensures forall i :: 0 <= i < |s| - |r| ==> s[i] == c
  {
    if s == [] || s[0] != c then s else TrimStart(s[1..], c)
  }

  lemma {:induction false} TrimStartAppend(s: string, t: string, c: char)
    ensures TrimStart(s + t, c) == if TrimStart(s, c) == [] then TrimStart(t, c) else TrimStart(s, c) + t
  {
    if s == [] {
      assert s + t == t;
    } else if s[0] == c {
      assert (s + t)[0] == c && (s + t)[1..] == s[1..] + t;
      assert TrimStart(s + t, c) == TrimStart(s[1..] + t, c) && TrimStart(s, c) == TrimStart(s[1..], c);
      TrimStartAppend(s[1..], t, c);
    } else {
      assert (s + t)[0] != c;
    }
  }

  /** `s.Replace(from, to)` for characters */
  function Replace(s: string, from: char, to: char): (r: string)
    ensures |r| == |s|
    ensures forall i :: 0 <= i < |s| ==> r[i] == (if s[i] == from then to else s[i])
  {
    if s == [] then [] else [if s[0] == from then to else s[0]] + Replace(s[1..], from, to)
  }

  /** `sub` occurs in `s` at position `i` */
  ghost predicate OccursAt(s: string, sub: string, i: int)
  {
    0 <= i && i + |sub| <= |s| && s[i..i + |sub|] == sub
  }

  /** Ordinal `s.Contains(sub)`, by trying each starting position in turn */
  function Contains(s: string, sub: string): (r: bool)
    ensures r <==> exists i :: OccursAt(s, sub, i)
  {
    if |s| < |sub| then
      false
    else if s[..|sub|] == sub then
      assert OccursAt(s, sub, 0);
      true
    else
      var rest := Contains(s[1..], sub);
      if rest then
        assert exists i :: OccursAt(s, sub, i) by {
          var i :| OccursAt(s[1..], sub, i);
          assert s[1..][i..i + |sub|] == s[i + 1..i + 1 + |sub|];
          assert OccursAt(s, sub, i + 1);
        }
        true
      else
        OccurrencesInTail(s, sub);
        false
  }

  /** When `sub` does not start `s`, every occurrence of it is an occurrence in `s[1..]`. */
  lemma OccurrencesInTail(s: string, sub: string)
    requires |sub| <= |s| && s[..|sub|] != sub
    ensures forall i :: OccursAt(s, sub, i) ==> i >= 1 && OccursAt(s[1..], sub, i - 1)
  {
    forall i | OccursAt(s, sub, i)
      ensures i >= 1 && OccursAt(s[1..], sub, i - 1)
    {
      assert s[1..][i - 1..i - 1 + |sub|] == s[i..i + |sub|];
    }
  }

  /** `list.Contains(x, StringComparer.OrdinalIgnoreCase)` */
  function ContainsIgnoreCase(list: seq<string>, x: string): (r: bool)
    ensures r <==> exists i :: 0 <= i < |list| && EqualsIgnoreCase(list[i], x)
  {
    if list == [] then false
    else EqualsIgnoreCase(list[0], x) || ContainsIgnoreCase(list[1..], x)
  }
}
