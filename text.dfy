/** The pieces of Rust's `str` API that the configuration parser relies on:
    `char::is_whitespace`, `trim`, `find` and `split`, on strings of characters. */
module Text {
  import opened Wrappers

  /** Unicode's White_Space property, which `char::is_whitespace` tests. */
  predicate IsWhitespace(c: char) {
    var n := c as int;
    (9 <= n <= 13) || n == 0x20 || n == 0x85 || n == 0xA0 || n == 0x1680
    || (0x2000 <= n <= 0x200A) || n == 0x2028 || n == 0x2029 || n == 0x202F
    || n == 0x205F || n == 0x3000
  }

  predicate AllWhitespace(s: string) {
    forall i :: 0 <= i < |s| ==> IsWhitespace(s[i])
  }

  /** `trim`: drops the whitespace at both ends (`trim_start`, then `trim_end`). */
  function Trim(s: string): (r: string)
    ensures |r| <= |s|
    ensures r != [] ==> !IsWhitespace(r[0]) && !IsWhitespace(r[|r| - 1])
    decreases |s|
  {
    if s == [] then s
    else if IsWhitespace(s[0]) then Trim(s[1..])
    else if IsWhitespace(s[|s| - 1]) then Trim(s[..|s| - 1])
    else s
  }

  /** The number of whitespace characters `s` starts with. */
  function Leading(s: string): (n: nat)
    ensures n <= |s| && AllWhitespace(s[..n])
    ensures n < |s| ==> !IsWhitespace(s[n])
  {
    if s != [] && IsWhitespace(s[0]) then
      assert s[..Leading(s[1..]) + 1] == [s[0]] + s[1..][..Leading(s[1..])];
      Leading(s[1..]) + 1
    else 0
  }

  /** What `TrimIsInfix` states about `s`. */
  predicate TrimmedInfix(s: string) {
    && Leading(s) + |Trim(s)| <= |s|
    && Trim(s) == s[Leading(s)..Leading(s) + |Trim(s)|]
    && AllWhitespace(s[Leading(s) + |Trim(s)|..])
  }

  lemma TrimmedInfixFront(s: string)
    requires s != [] && IsWhitespace(s[0]) && TrimmedInfix(s[1..])
    ensures TrimmedInfix(s)
  {
    assert s[1..][Leading(s[1..])..] == s[Leading(s)..];
  }

  lemma TrimmedInfixBack(s: string)
    requires s != [] && !IsWhitespace(s[0]) && IsWhitespace(s[|s| - 1])
    requires TrimmedInfix(s[..|s| - 1])
    ensures TrimmedInfix(s)
  {
    var t := s[..|s| - 1];
    assert Leading(t) == Leading(s) == 0;
    assert s[|Trim(t)|..] == t[|Trim(t)|..] + [s[|s| - 1]];
  }

  /** `trim` cuts off exactly the leading and the trailing whitespace: what is left is
      the part of `s` after its leading whitespace, and everything after it is whitespace. */
  lemma {:induction false} TrimIsInfix(s: string)
    ensures TrimmedInfix(s)
    decreases |s|
  {
    if s == [] {
    } else if IsWhitespace(s[0]) {
      TrimIsInfix(s[1..]);
      TrimmedInfixFront(s);
    } else if IsWhitespace(s[|s| - 1]) {
      TrimIsInfix(s[..|s| - 1]);
      TrimmedInfixBack(s);
    }
  }

  /** A line is blank after `trim` exactly when it is all whitespace. */
  lemma {:induction false} TrimEmptyIff(s: string)
    ensures Trim(s) == [] <==> AllWhitespace(s)
  {
    TrimIsInfix(s);
    if Trim(s) == [] {
      assert s == s[..Leading(s)] + s[Leading(s)..];
    } else {
      assert s[Leading(s)] == Trim(s)[0];
    }
  }

  /** A string that already has no whitespace at either end is its own trim. */
  lemma TrimOfTrimmed(s: string)
    requires s != [] ==> !IsWhitespace(s[0]) && !IsWhitespace(s[|s| - 1])
    ensures Trim(s) == s
  {
  }

  /** `trim` is idempotent. */
  lemma TrimIdempotent(s: string)
    ensures Trim(Trim(s)) == Trim(s)
  {
    TrimOfTrimmed(Trim(s));
  }

  /** `find(char::is_whitespace)`: the index of the first whitespace character. */
  function FindWhitespace(s: string): (r: Option<nat>)
    ensures r.Some? ==> r.value < |s| && IsWhitespace(s[r.value])
    ensures r.Some? ==> forall j :: 0 <= j < r.value ==> !IsWhitespace(s[j])
    ensures r.None? <==> forall j :: 0 <= j < |s| ==> !IsWhitespace(s[j])
  {
    if s == [] then None
    else if IsWhitespace(s[0]) then Some(0)
    else match FindWhitespace(s[1..])
      case None => None
      case Some(i) => Some(i + 1)
  }

  /** The index of the first occurrence of `c` in `s`. */
  function IndexOf(s: string, c: char): (r: Option<nat>)
    ensures r.Some? ==> r.value < |s| && s[r.value] == c && c !in s[..r.value]
    ensures r.None? <==> c !in s
  {
    if s == [] then None
    else if s[0] == c then Some(0)
    else match IndexOf(s[1..], c)
      case None => None
      case Some(i) => assert s[..i + 1] == [s[0]] + s[1..][..i]; Some(i + 1)
  }

  /** `split(sep)`: the pieces between separators, empty ones included,
      so that a string without `sep` gives one piece and "" gives [""]. */
  function Split(s: string, sep: char): (r: seq<string>)
    ensures |r| >= 1
    ensures forall i :: 0 <= i < |r| ==> sep !in r[i]
    decreases |s|
  {
    match IndexOf(s, sep)
    case None => [s]
    case Some(i) => [s[..i]] + Split(s[i + 1..], sep)
  }

  /** Joins pieces with `sep` between each pair: the inverse of `Split`. */
  function Join(parts: seq<string>, sep: char): string
    requires |parts| >= 1
  {
    if |parts| == 1 then parts[0] else parts[0] + [sep] + Join(parts[1..], sep)
  }

  /** A join starts with its first piece. */
  lemma JoinFirst(parts: seq<string>, sep: char)
    requires |parts| >= 1 && parts[0] != []
    ensures |Join(parts, sep)| > 0 && Join(parts, sep)[0] == parts[0][0]
  {
  }

  /** A join ends with its last piece. */
  lemma {:induction false} JoinLast(parts: seq<string>, sep: char)
    requires |parts| >= 1 && parts[|parts| - 1] != []
    ensures |Join(parts, sep)| > 0
    ensures Join(parts, sep)[|Join(parts, sep)| - 1] == parts[|parts| - 1][|parts[|parts| - 1]| - 1]
    decreases |parts|
  {
    if |parts| > 1 {
      JoinLast(parts[1..], sep);
    }
  }

  /** A character in no piece and other than the separator is not in the join. */
  lemma {:induction false} JoinAvoids(parts: seq<string>, sep: char, c: char)
    requires |parts| >= 1 && c != sep && forall i :: 0 <= i < |parts| ==> c !in parts[i]
    ensures c !in Join(parts, sep)
    decreases |parts|
  {
    if |parts| > 1 {
      assert forall i :: 0 <= i < |parts| - 1 ==> parts[1..][i] == parts[i + 1];
      JoinAvoids(parts[1..], sep, c);
    }
  }

  /** Joining a piece in front of at least one more adds it and a separator. */
  lemma JoinCons(head: string, rest: seq<string>, sep: char)
    requires |rest| >= 1
    ensures Join([head] + rest, sep) == head + [sep] + Join(rest, sep)
  {
    assert ([head] + rest)[1..] == rest;
  }

  /** Splitting loses nothing: the pieces joined with the separator give the string back. */
  lemma {:induction false} JoinSplit(s: string, sep: char)
    ensures Join(Split(s, sep), sep) == s
    decreases |s|
  {
    match IndexOf(s, sep)
    case None =>
    case Some(i) =>
      var rest := Split(s[i + 1..], sep);
      JoinCons(s[..i], rest, sep);
      JoinSplit(s[i + 1..], sep);
      assert s == s[..i] + [sep] + s[i + 1..];
  }

  /** The first separator of `a + [sep] + b` is the one after `a` when `a` has none. */
  lemma {:induction false} IndexOfAfter(a: string, sep: char, b: string)
    requires sep !in a
    ensures IndexOf(a + [sep] + b, sep) == Some(|a|)
  {
    if a != [] {
      assert (a + [sep] + b)[1..] == a[1..] + [sep] + b;
      IndexOfAfter(a[1..], sep, b);
    }
  }

  /** Joining separator-free pieces and splitting again gives the same pieces. */
  lemma {:induction false} SplitJoin(parts: seq<string>, sep: char)
    requires |parts| >= 1
    requires forall i :: 0 <= i < |parts| ==> sep !in parts[i]
    ensures Split(Join(parts, sep), sep) == parts
    decreases |parts|
  {
    if |parts| == 1 {
      assert IndexOf(parts[0], sep).None?;
    } else {
      var head, tail := parts[0], Join(parts[1..], sep);
      var s := head + [sep] + tail;
      assert Join(parts, sep) == s;
      IndexOfAfter(head, sep, tail);
      assert s[..|head|] == head;
      assert s[|head| + 1..] == tail;
      SplitJoin(parts[1..], sep);
      assert Split(s, sep) == [head] + parts[1..];
    }
  }
}
