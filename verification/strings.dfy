/** Go's `strings.Split` for a one-character separator, together with its
    inverse `Join` and an index-based description of the second field, the
    element the TTL parser reads. */
module Strings {

  /** Number of occurrences of `x` in `s`. */
  function Occurrences<T(==)>(s: seq<T>, x: T): (n: nat)
    ensures n <= |s|
    ensures n == 0 <==> x !in s
  {
    if |s| == 0 then 0
    else (if s[0] == x then 1 else 0) + Occurrences(s[1..], x)
  }

  /** `strings.Split(s, string(sep))`: the maximal pieces of `s` between
      separators, always at least one (`Split("", sep) == [""]`). */
  function Split(s: string, sep: char): (parts: seq<string>)
    ensures |parts| >= 1
    ensures forall i :: 0 <= i < |parts| ==> sep !in parts[i]
  {
    if |s| == 0 then [""]
    else
      var rest := Split(s[1..], sep);
      if s[0] == sep then [""] + rest
      else [[s[0]] + rest[0]] + rest[1..]
  }

  /** There is one more piece than there are separators. */
  lemma {:induction false} SplitCount(s: string, sep: char)
    ensures |Split(s, sep)| == Occurrences(s, sep) + 1
  {
    if |s| > 0 {
      SplitCount(s[1..], sep);
    }
  }

  /** `strings.Join(parts, string(sep))`. */
  function Join(parts: seq<string>, sep: char): string {
    if |parts| == 0 then ""
    else if |parts| == 1 then parts[0]
    else parts[0] + [sep] + Join(parts[1..], sep)
  }

  /** Joining after a first piece puts one separator between them. */
  lemma JoinCons(first: string, rest: seq<string>, sep: char)
    requires |rest| >= 1
    ensures Join([first] + rest, sep) == first + [sep] + Join(rest, sep)
  {
    assert ([first] + rest)[1..] == rest;
  }

  /** Lengthening the first piece lengthens the joined text at the front. */
  lemma JoinExtendFirst(c: char, parts: seq<string>, sep: char)
    requires |parts| >= 1
    ensures Join([[c] + parts[0]] + parts[1..], sep) == [c] + Join(parts, sep)
  {
    if |parts| == 1 {
      assert [[c] + parts[0]] + parts[1..] == [[c] + parts[0]];
    } else {
      JoinCons([c] + parts[0], parts[1..], sep);
      JoinCons(parts[0], parts[1..], sep);
      assert parts == [parts[0]] + parts[1..];
    }
  }

  /** Joining the pieces back with the separator restores the input. */
  lemma {:induction false} JoinSplit(s: string, sep: char)
    ensures Join(Split(s, sep), sep) == s
  {
    if |s| > 0 {
      var rest := Split(s[1..], sep);
      JoinSplit(s[1..], sep);
      if s[0] == sep {
        JoinCons("", rest, sep);
      } else {
        JoinExtendFirst(s[0], rest, sep);
      }
      assert s == [s[0]] + s[1..];
    }
  }

  /** Splitting a separator-free prefix glued onto `t` only lengthens the first piece. */
  lemma {:induction false} SplitAfterPrefix(prefix: string, t: string, sep: char)
    requires sep !in prefix
    ensures Split(prefix + t, sep) == [prefix + Split(t, sep)[0]] + Split(t, sep)[1..]
  {
    var pieces := Split(t, sep);
    if |prefix| == 0 {
      assert prefix + t == t;
      assert prefix + pieces[0] == pieces[0];
      assert pieces == [pieces[0]] + pieces[1..];
    } else {
      var s := prefix + t;
      assert s[0] == prefix[0] && s[1..] == prefix[1..] + t;
      SplitAfterPrefix(prefix[1..], t, sep);
      var rest := Split(s[1..], sep);
      assert rest == [prefix[1..] + pieces[0]] + pieces[1..];
      assert Split(s, sep) == [[s[0]] + rest[0]] + rest[1..];
      assert [prefix[0]] + (prefix[1..] + pieces[0]) == prefix + pieces[0];
    }
  }

  /** Splitting the join of separator-free pieces gives the pieces back. */
  lemma {:induction false} SplitJoin(parts: seq<string>, sep: char)
    requires |parts| >= 1
    requires forall i :: 0 <= i < |parts| ==> sep !in parts[i]
    ensures Split(Join(parts, sep), sep) == parts
  {
    if |parts| == 1 {
      SplitAfterPrefix(parts[0], "", sep);
      assert parts[0] + "" == parts[0];
    } else {
      var tail := Join(parts[1..], sep);
      SplitJoin(parts[1..], sep);
      var marked := [sep] + tail;
      assert marked[0] == sep && marked[1..] == tail;
      assert Split(marked, sep) == [""] + parts[1..];
      SplitAfterPrefix(parts[0], marked, sep);
      assert Join(parts, sep) == parts[0] + marked;
      assert parts[0] + "" == parts[0];
      assert parts == [parts[0]] + parts[1..];
    }
  }

  /** Position of the first `c` in `s`. */
  function IndexOf(s: string, c: char): (i: nat)
    requires c in s
    ensures i < |s| && s[i] == c
    ensures c !in s[..i]
  {
    if s[0] == c then 0
    else
      assert c in s[1..] by { assert s == [s[0]] + s[1..]; }
      var j := IndexOf(s[1..], c);
      assert s[..j + 1] == [s[0]] + s[1..][..j];
      1 + j
  }

  /** The text after the first `sep`, up to the next `sep` or the end. */
  function SecondField(s: string, sep: char): (field: string)
    requires sep in s
    ensures sep !in field
  {
    var rest := s[IndexOf(s, sep) + 1..];
    if sep in rest then rest[..IndexOf(rest, sep)] else rest
  }

  /** Without a separator there is exactly one piece, the whole input. */
  lemma SplitWithoutSeparator(s: string, sep: char)
    requires sep !in s
    ensures Split(s, sep) == [s]
  {
    SplitAfterPrefix(s, "", sep);
    assert s + "" == s;
  }

  /** A leading separator contributes an empty first piece. */
  lemma SplitMarked(t: string, sep: char)
    ensures Split([sep] + t, sep) == [""] + Split(t, sep)
  {
    assert ([sep] + t)[1..] == t;
  }

  /** A text that is empty or starts with a separator has an empty first piece. */
  lemma SplitFirstEmpty(s: string, sep: char)
    requires s == [] || s[0] == sep
    ensures Split(s, sep)[0] == ""
  {
    if s != [] {
      assert s == [sep] + s[1..];
      SplitMarked(s[1..], sep);
    }
  }

  /** When `s[i]` is the first separator and `s[j]` the next one (or `j` is
      the end), the piece at index 1 is `s[i + 1..j]`. */
  lemma SplitSecondPiece(s: string, i: nat, j: nat, sep: char)
    requires i < j <= |s| && s[i] == sep
    requires sep !in s[..i] && sep !in s[i + 1..j]
    requires j == |s| || s[j] == sep
    ensures |Split(s, sep)| >= 2 && Split(s, sep)[1] == s[i + 1..j]
  {
    var name, marked, inner, field, tail := s[..i], s[i..], s[i + 1..], s[i + 1..j], s[j..];
    assert s == name + marked;
    SplitAfterPrefix(name, marked, sep);
    assert Split(s, sep)[1..] == Split(marked, sep)[1..];
    assert marked == [sep] + inner;
    SplitMarked(inner, sep);
    assert Split(marked, sep)[1..] == Split(inner, sep);
    assert inner == field + tail;
    SplitAfterPrefix(field, tail, sep);
    SplitFirstEmpty(tail, sep);
    assert Split(inner, sep)[0] == field + "" == field;
  }

  /** Where the second field ends: at the second separator, or at the end. */
  function SecondFieldEnd(s: string, sep: char): (j: nat)
    requires sep in s
    ensures IndexOf(s, sep) < j <= |s|
    ensures SecondField(s, sep) == s[IndexOf(s, sep) + 1..j]
    ensures sep !in s[IndexOf(s, sep) + 1..j]
    ensures j == |s| || s[j] == sep
  {
    var i := IndexOf(s, sep);
    var rest := s[i + 1..];
    if sep in rest then
      var k := IndexOf(rest, sep);
      assert rest[..k] == s[i + 1..i + 1 + k];
      i + 1 + k
    else
      assert rest == s[i + 1..|s|];
      |s|
  }

  /** The piece at index 1 is the second field of a text holding a separator. */
  lemma SplitSecondFieldPresent(s: string, sep: char)
    requires sep in s
    ensures |Split(s, sep)| >= 2 && Split(s, sep)[1] == SecondField(s, sep)
  {
    SplitSecondPiece(s, IndexOf(s, sep), SecondFieldEnd(s, sep), sep);
  }

  /** The element `strings.Split(s, sep)[1]` exists exactly when `s` holds a
      separator, and it is then the second field of `s`. */
  lemma SplitSecondField(s: string, sep: char)
    ensures sep !in s ==> Split(s, sep) == [s]
    ensures sep in s ==> |Split(s, sep)| >= 2 && Split(s, sep)[1] == SecondField(s, sep)
  {
    if sep in s {
      SplitSecondFieldPresent(s, sep);
    } else {
      SplitWithoutSeparator(s, sep);
    }
  }
}
