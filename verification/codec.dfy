/**
 * The comma codec of the dish exclusion list. The remote record carries the
 * list as one string; the client reads it with `split(',')` followed by
 * `trim()` on every element, and writes it back with `join(',')`.
 */
module DishCodec {

  const Separator: char := ','

  /** The characters JavaScript's `String.prototype.trim` strips. */
  predicate IsWhitespace(c: char) {
    c == ' ' || c == '\t' || c == '\n' || c == '\r' ||
    c == '\U{000B}' || c == '\U{000C}' || c == '\U{00A0}' || c == '\U{1680}' ||
    ('\U{2000}' <= c <= '\U{200A}') ||
    c == '\U{2028}' || c == '\U{2029}' || c == '\U{202F}' || c == '\U{205F}' ||
    c == '\U{3000}' || c == '\U{FEFF}'
  }

  /** Neither the first nor the last character is whitespace. */
  predicate IsTrimmed(s: string) {
    |s| == 0 || (!IsWhitespace(s[0]) && !IsWhitespace(s[|s| - 1]))
  }

  predicate AllWhitespace(s: string) {
    forall i :: 0 <= i < |s| ==> IsWhitespace(s[i])
  }

  function TrimStart(s: string): (r: string)
    ensures |r| <= |s| && r == s[|s| - |r|..]
    ensures AllWhitespace(s[..|s| - |r|])
    ensures |r| == 0 || !IsWhitespace(r[0])
  {
    if |s| > 0 && IsWhitespace(s[0]) then TrimStart(s[1..]) else s
  }

  function TrimEnd(s: string): (r: string)
    ensures |r| <= |s| && r == s[..|r|]
    ensures AllWhitespace(s[|r|..])
    ensures |r| == 0 || !IsWhitespace(r[|r| - 1])
  {
    if |s| > 0 && IsWhitespace(s[|s| - 1]) then TrimEnd(s[..|s| - 1]) else s
  }

  /**
   * `s.trim()`: the result is a slice of `s` with only whitespace cut away on
   * either side, and it has no surrounding whitespace itself.
   */
  function Trim(s: string): (r: string)
    ensures IsTrimmed(r)
    ensures IsSliceBetweenWhitespace(r, s)
  {
    var t := TrimStart(s);
    var r := TrimEnd(t);
    TrimSlice(s, t, r);
    r
  }

  /** `r` is `s` with some whitespace, and only whitespace, cut off each end. */
  ghost predicate IsSliceBetweenWhitespace(r: string, s: string) {
    exists i, j :: CutsWhitespace(r, s, i, j)
  }

  /** `r` is `s[i..j]`, and what lies outside `i..j` is whitespace. */
  ghost predicate CutsWhitespace(r: string, s: string, i: int, j: int) {
    0 <= i <= j <= |s| && r == s[i..j] && AllWhitespace(s[..i]) && AllWhitespace(s[j..])
  }

  lemma TrimSlice(s: string, t: string, r: string)
    requires t == TrimStart(s) && r == TrimEnd(t)
    ensures IsTrimmed(r) && IsSliceBetweenWhitespace(r, s)
  {
    TrimmedEnds(t, r);
    TrimCuts(s, t, r);
  }

  lemma TrimmedEnds(t: string, r: string)
    requires |t| == 0 || !IsWhitespace(t[0])
    requires r == TrimEnd(t)
    ensures IsTrimmed(r)
  {
    if |r| > 0 {
      assert r[0] == t[0];
    }
  }

  lemma TrimCuts(s: string, t: string, r: string)
    requires |t| <= |s| && t == s[|s| - |t|..] && AllWhitespace(s[..|s| - |t|])
    requires |r| <= |t| && r == t[..|r|] && AllWhitespace(t[|r|..])
    ensures CutsWhitespace(r, s, |s| - |t|, |s| - |t| + |r|)
  {
    var i := |s| - |t|;
    var j := i + |r|;
    assert s[i..j] == r;
    assert s[j..] == t[|r|..];
  }

  lemma TrimOfTrimmed(s: string)
    requires IsTrimmed(s)
    ensures Trim(s) == s
  {
    TrimStartKeeps(s);
    TrimEndKeeps(s);
  }

  lemma TrimStartKeeps(s: string)
    requires |s| == 0 || !IsWhitespace(s[0])
    ensures TrimStart(s) == s
  {
  }

  lemma TrimEndKeeps(s: string)
    requires |s| == 0 || !IsWhitespace(s[|s| - 1])
    ensures TrimEnd(s) == s
  {
  }

  /** `s.split(',')`: always at least one piece, and no piece holds a comma. */
  function Split(s: string): (r: seq<string>)
    ensures |r| >= 1
    ensures forall i :: 0 <= i < |r| ==> Separator !in r[i]
  {
    if |s| == 0 then [""]
    else if s[0] == Separator then [""] + Split(s[1..])
    else
      var rest := Split(s[1..]);
      [[s[0]] + rest[0]] + rest[1..]
  }

  /** `parts.join(',')`. */
  function Join(parts: seq<string>): (r: string)
    ensures |parts| == 0 ==> r == ""
    ensures |parts| == 1 ==> r == parts[0]
  {
    if |parts| == 0 then ""
    else if |parts| == 1 then parts[0]
    else parts[0] + [Separator] + Join(parts[1..])
  }

  predicate NoSeparator(parts: seq<string>) {
    forall i :: 0 <= i < |parts| ==> Separator !in parts[i]
  }

  /** Joining the pieces of a split gives the original string back. */
  lemma {:induction false} JoinSplit(s: string)
    ensures Join(Split(s)) == s
  {
    if |s| == 0 {
    } else if s[0] == Separator {
      JoinSplit(s[1..]);
      var rest := Split(s[1..]);
      assert Split(s) == [""] + rest;
      assert ([""] + rest)[1..] == rest;
      assert s == [Separator] + s[1..];
    } else {
      JoinSplit(s[1..]);
      var rest := Split(s[1..]);
      var r := [[s[0]] + rest[0]] + rest[1..];
      assert Split(s) == r;
      if |rest| == 1 {
        assert s == [s[0]] + s[1..];
      } else {
        assert r[1..] == rest[1..];
        assert Join(rest) == rest[0] + [Separator] + Join(rest[1..]);
        assert s == [s[0]] + s[1..];
      }
    }
  }

  /** Splitting a comma-free prefix glues it onto the first piece of the tail. */
  lemma {:induction false} SplitPrefix(p: string, t: string)
    requires Separator !in p
    ensures Split(p + t) == [p + Split(t)[0]] + Split(t)[1..]
  {
    if |p| == 0 {
      assert p + t == t;
      assert p + Split(t)[0] == Split(t)[0];
      assert Split(t) == [Split(t)[0]] + Split(t)[1..];
    } else {
      SplitPrefix(p[1..], t);
      assert (p + t)[1..] == p[1..] + t;
      assert (p + t)[0] == p[0];
      assert [p[0]] + (p[1..] + Split(t)[0]) == p + Split(t)[0];
    }
  }

  /**
   * Splitting a join gives the pieces back, as long as there is at least one
   * piece and none of them holds a comma.
   */
  lemma {:induction false} SplitJoin(parts: seq<string>)
    requires |parts| >= 1 && NoSeparator(parts)
    ensures Split(Join(parts)) == parts
  {
    if |parts| == 1 {
      SplitPrefix(parts[0], "");
      assert parts[0] + "" == parts[0];
    } else {
      var tail := Join(parts[1..]);
      SplitJoin(parts[1..]);
      assert Split([Separator] + tail) == [""] + Split(tail);
      SplitPrefix(parts[0], [Separator] + tail);
      assert parts[0] + [Separator] + tail == parts[0] + ([Separator] + tail);
      assert parts[0] + "" == parts[0];
      assert parts == [parts[0]] + parts[1..];
    }
  }

  /** Trims every element, keeping order and length. */
  function TrimAll(parts: seq<string>): (r: seq<string>)
    ensures |r| == |parts|
    ensures forall i :: 0 <= i < |r| ==> r[i] == Trim(parts[i])
  {
    seq(|parts|, i requires 0 <= i < |parts| => Trim(parts[i]))
  }

  /** `s.split(',').map(dish => dish.trim())`. */
  function Decode(s: string): (r: seq<string>)
    ensures |r| >= 1
    ensures forall i :: 0 <= i < |r| ==> IsTrimmed(r[i])
  {
    TrimAll(Split(s))
  }

  /** Every element is free of commas and of surrounding whitespace. */
  predicate Clean(list: seq<string>) {
    forall i :: 0 <= i < |list| ==> Separator !in list[i] && IsTrimmed(list[i])
  }

  /** Trimming cuts characters away and adds none, so a comma-free piece stays comma-free. */
  lemma TrimKeepsOut(s: string, c: char)
    requires c !in s
    ensures c !in Trim(s)
  {
    var i, j :| CutsWhitespace(Trim(s), s, i, j);
    SliceKeepsOut(s, i, j, c);
  }

  lemma SliceKeepsOut(s: string, i: int, j: int, c: char)
    requires 0 <= i <= j <= |s| && c !in s
    ensures c !in s[i..j]
  {
    assert forall k :: 0 <= k < j - i ==> s[i..j][k] == s[i + k];
  }

  /** Whatever string is read, the decoded list is clean. */
  lemma DecodeIsClean(s: string)
    ensures Clean(Decode(s))
  {
    var parts := Split(s);
    forall i | 0 <= i < |parts| ensures Separator !in Decode(s)[i] {
      TrimKeepsOut(parts[i], Separator);
    }
  }

  /**
   * Decoding is idempotent through a re-encoding: joining a decoded list and
   * reading it again gives the same list, whatever the original string was.
   */
  lemma DecodeJoinDecode(s: string)
    ensures Decode(Join(Decode(s))) == Decode(s)
  {
    DecodeIsClean(s);
    DecodeJoin(Decode(s));
  }

  /**
   * Re-encoding a decoded string gives the original string back whenever no
   * element of it carries surrounding whitespace.
   */
  lemma JoinDecode(s: string)
    requires forall i :: 0 <= i < |Split(s)| ==> IsTrimmed(Split(s)[i])
    ensures Join(Decode(s)) == s
  {
    var parts := Split(s);
    forall i | 0 <= i < |parts| ensures Decode(s)[i] == parts[i] {
      TrimOfTrimmed(parts[i]);
    }
    assert Decode(s) == parts;
    JoinSplit(s);
  }

  /** Decoding an encoded non-empty clean list gives the list back. */
  lemma DecodeJoin(list: seq<string>)
    requires |list| >= 1 && Clean(list)
    ensures Decode(Join(list)) == list
  {
    SplitJoin(list);
    forall i | 0 <= i < |list| ensures Decode(Join(list))[i] == list[i] {
      TrimOfTrimmed(list[i]);
    }
  }

  /**
   * The empty list does not survive the round trip: it is sent as "" and
   * `"".split(',')` is `[""]`.
   */
  lemma EmptyListDecodesToOneBlank()
    ensures Join([]) == "" && Decode(Join([])) == [""]
  {
    assert Split("") == [""];
    TrimOfTrimmed("");
  }
}
