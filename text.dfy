/** The string operations the admin forms use on comma-separated lists:
    `String.prototype.split` on a one-character separator, `trim`,
    `Array.prototype.join`, and the ASCII part of `toLowerCase`. */
module Text {

  /** The code points `String.prototype.trim` strips: ECMAScript WhiteSpace
      and LineTerminator. */
  predicate IsSpace(c: char) {
    || c == '\t' || c == '\n' || c == '\U{000B}' || c == '\U{000C}' || c == '\r'
    || c == ' ' || c == '\U{00A0}' || c == '\U{1680}'
    || ('\U{2000}' <= c <= '\U{200A}')
    || c == '\U{2028}' || c == '\U{2029}' || c == '\U{202F}' || c == '\U{205F}'
    || c == '\U{3000}' || c == '\U{FEFF}'
  }

  /** Neither starts nor ends with white space. */
  predicate Trimmed(s: string) {
    s == [] || (!IsSpace(s[0]) && !IsSpace(s[|s| - 1]))
  }

  /** The index of the first non-white-space character at or after `i`. */
  function SkipSpace(s: string, i: nat): (n: nat)
    requires i <= |s|
    ensures i <= n <= |s|
    ensures forall k :: i <= k < n ==> IsSpace(s[k])
    ensures n == |s| || !IsSpace(s[n])
    decreases |s| - i
  {
    if i < |s| && IsSpace(s[i]) then SkipSpace(s, i + 1) else i
  }

  /** The end of `s[i..j]` once white space is dropped from its end. */
  function SkipSpaceBack(s: string, i: nat, j: nat): (n: nat)
    requires i <= j <= |s|
    ensures i <= n <= j
    ensures forall k :: n <= k < j ==> IsSpace(s[k])
    ensures n == i || !IsSpace(s[n - 1])
    decreases j
  {
    if i < j && IsSpace(s[j - 1]) then SkipSpaceBack(s, i, j - 1) else j
  }

  /** `s[i..j]` drops only white space from either end of `s`. */
  predicate StripsSpace(s: string, i: int, j: int) {
    && 0 <= i <= j <= |s|
    && (forall k :: 0 <= k < i ==> IsSpace(s[k]))
    && (forall k :: j <= k < |s| ==> IsSpace(s[k]))
  }

  /** `s.trim()`: the infix of `s` left after dropping white space on either
      side, which neither starts nor ends with white space. The two clauses
      determine the result (TrimUnique). */
  function Trim(s: string): (r: string)
    ensures Trimmed(r)
    ensures exists i, j :: StripsSpace(s, i, j) && r == s[i..j]
  {
    var i := SkipSpace(s, 0);
    var j := SkipSpaceBack(s, i, |s|);
    assert StripsSpace(s, i, j);
    s[i..j]
  }

  /** Where `Trim` cuts `s`. */
  lemma TrimBounds(s: string) returns (i: int, j: int)
    ensures StripsSpace(s, i, j) && Trim(s) == s[i..j]
  {
    i := SkipSpace(s, 0);
    j := SkipSpaceBack(s, i, |s|);
  }

  /** Only one infix of `s` drops nothing but outer white space and neither
      starts nor ends with it. */
  lemma TrimUnique(s: string, i1: int, j1: int, i2: int, j2: int)
    requires StripsSpace(s, i1, j1) && Trimmed(s[i1..j1])
    requires StripsSpace(s, i2, j2) && Trimmed(s[i2..j2])
    ensures s[i1..j1] == s[i2..j2]
  {
    if i1 < j1 && i2 < j2 {
      assert s[i1..j1][0] == s[i1] && s[i2..j2][0] == s[i2];
      assert s[i1..j1][j1 - i1 - 1] == s[j1 - 1] && s[i2..j2][j2 - i2 - 1] == s[j2 - 1];
      assert i1 == i2 && j1 == j2;
    }
  }

  /** Trimming a comma-free string gives a comma-free string. */
  lemma TrimKeepsCommaFree(s: string)
    requires ',' !in s
    ensures ',' !in Trim(s)
  {
    var i, j := TrimBounds(s);
    assert forall k :: 0 <= k < |Trim(s)| ==> Trim(s)[k] == s[i + k];
  }

  lemma TrimOfTrimmed(s: string)
    requires Trimmed(s)
    ensures Trim(s) == s
  {
    if s != [] {
      assert SkipSpace(s, 0) == 0;
      assert SkipSpaceBack(s, 0, |s|) == |s|;
    }
    assert s[0..|s|] == s;
  }

  /** A leading blank, as `join(", ")` leaves before each later item, is trimmed away. */
  lemma TrimLeadingBlank(s: string)
    ensures Trim([' '] + s) == Trim(s)
  {
    var i, j := TrimBounds(s);
    StripsBehindBlank(s, i, j);
    var ib, jb := TrimBounds([' '] + s);
    TrimUnique([' '] + s, ib, jb, i + 1, j + 1);
  }

  lemma StripsBehindBlank(s: string, i: int, j: int)
    requires StripsSpace(s, i, j)
    ensures StripsSpace([' '] + s, i + 1, j + 1) && ([' '] + s)[i + 1..j + 1] == s[i..j]
  {
    var b := [' '] + s;
    forall k | 0 <= k < i + 1
      ensures IsSpace(b[k])
    {
      if k > 0 { assert b[k] == s[k - 1]; }
    }
    forall k | j + 1 <= k < |b|
      ensures IsSpace(b[k])
    {
      assert b[k] == s[k - 1];
    }
    assert b[1..] == s;
  }

  /** `items.join(sep)`. */
  function Join(items: seq<string>, sep: string): string
    decreases |items|
  {
    if items == [] then ""
    else if |items| == 1 then items[0]
    else items[0] + sep + Join(items[1..], sep)
  }

  /** `s.split(c)` for a one-character separator: the pieces between the
      occurrences of `c`, always at least one (`"".split(",")` is `[""]`).
      Joining the pieces with `c` gives `s` back. */
  function Split(s: string, c: char): (r: seq<string>)
    ensures |r| >= 1
    ensures forall i :: 0 <= i < |r| ==> c !in r[i]
    ensures Join(r, [c]) == s
    decreases |s|
  {
    if s == [] then [[]]
    else
      var rest := Split(s[1..], c);
      if s[0] == c then
        [[]] + rest
      else
        var r := [[s[0]] + rest[0]] + rest[1..];
        assert Join(r, [c]) == [s[0]] + Join(rest, [c]) by {
          if |rest| > 1 {
            assert rest == [rest[0]] + rest[1..];
            assert r[1..] == rest[1..];
          }
        }
        r
  }

  lemma SplitNoSeparator(s: string, c: char)
    requires c !in s
    ensures Split(s, c) == [s]
    decreases |s|
  {
    if s != [] {
      SplitNoSeparator(s[1..], c);
    }
  }

  /** A piece without the separator, then the separator: the piece comes out first. */
  lemma {:induction false} SplitAfterPiece(x: string, c: char, y: string)
    requires c !in x
    ensures Split(x + [c] + y, c) == [x] + Split(y, c)
    decreases |x|
  {
    if x == [] {
      assert x + [c] + y == [c] + y;
      assert ([c] + y)[1..] == y;
    } else {
      assert (x + [c] + y)[1..] == x[1..] + [c] + y;
      SplitAfterPiece(x[1..], c, y);
      assert [x[0]] + x[1..] == x;
    }
  }

  /** `s.split(",").map(x => x.trim()).filter(x => x)`, written as one pass:
      each piece trimmed, empty pieces dropped. */
  function Clean(pieces: seq<string>): (r: seq<string>)
    ensures forall i :: 0 <= i < |r| ==> r[i] != [] && Trimmed(r[i])
    decreases |pieces|
  {
    if pieces == [] then []
    else
      var t := Trim(pieces[0]);
      (if t == [] then [] else [t]) + Clean(pieces[1..])
  }

  /** Cleaning comma-free pieces gives comma-free items. */
  lemma {:induction false} CleanKeepsCommaFree(pieces: seq<string>)
    requires forall i :: 0 <= i < |pieces| ==> ',' !in pieces[i]
    ensures forall i :: 0 <= i < |Clean(pieces)| ==> ',' !in Clean(pieces)[i]
    decreases |pieces|
  {
    if pieces != [] {
      TrimKeepsCommaFree(pieces[0]);
      CleanKeepsCommaFree(pieces[1..]);
    }
  }

  /** The comma-separated list a form field holds, as the submit handlers read it. */
  function ParseList(s: string): (r: seq<string>)
    ensures forall i :: 0 <= i < |r| ==> r[i] != [] && Trimmed(r[i]) && ',' !in r[i]
  {
    CleanKeepsCommaFree(Split(s, ','));
    Clean(Split(s, ','))
  }

  /** An item of a list that survives a join-and-parse unchanged. */
  predicate CleanItem(x: string) {
    x != [] && Trimmed(x) && ',' !in x
  }

  lemma CleanAfterBlank(z: string)
    ensures Clean(Split([' '] + z, ',')) == Clean(Split(z, ','))
  {
    var p := Split(z, ',');
    assert ([' '] + z)[1..] == z;
    var q := Split([' '] + z, ',');
    assert q == [[' '] + p[0]] + p[1..];
    TrimLeadingBlank(p[0]);
    assert q[1..] == p[1..];
  }

  lemma ParseEmpty()
    ensures ParseList("") == []
  {
    assert Split("", ',') == [""];
  }

  lemma ParseSingle(a: string)
    requires CleanItem(a)
    ensures ParseList(a) == [a]
  {
    SplitNoSeparator(a, ',');
    TrimOfTrimmed(a);
    assert [a][1..] == [];
    assert Clean([]) == [];
    assert Trim(a) == a;
    assert Clean([a]) == [a] + Clean([]);
  }

  lemma ParseFirst(a: string, j: string)
    requires CleanItem(a)
    ensures ParseList(a + ", " + j) == [a] + ParseList(j)
  {
    assert a + ", " + j == a + [','] + ([' '] + j);
    SplitAfterPiece(a, ',', [' '] + j);
    var p := Split([' '] + j, ',');
    assert ([a] + p)[1..] == p;
    TrimOfTrimmed(a);
    CleanAfterBlank(j);
  }

  /** Editing joins a list with ", " and submitting parses it again: the list
      comes back unchanged when every item is non-empty, trimmed and comma-free. */
  lemma {:induction false} ParseJoinRoundTrip(items: seq<string>)
    requires forall i :: 0 <= i < |items| ==> CleanItem(items[i])
    ensures ParseList(Join(items, ", ")) == items
    decreases |items|
  {
    if items == [] {
      ParseEmpty();
    } else if |items| == 1 {
      assert items == [items[0]];
      assert Join(items, ", ") == items[0];
      ParseSingle(items[0]);
    } else {
      var j := Join(items[1..], ", ");
      assert Join(items, ", ") == items[0] + ", " + j;
      calc {
        ParseList(Join(items, ", "));
        ParseList(items[0] + ", " + j);
        { ParseFirst(items[0], j); }
        [items[0]] + ParseList(j);
        { ParseJoinRoundTrip(items[1..]); }
        [items[0]] + items[1..];
        items;
      }
    }
  }

  /** Parsing normalises: parsing what an edit would show again changes nothing. */
  lemma ParseListNormalises(s: string)
    ensures ParseList(Join(ParseList(s), ", ")) == ParseList(s)
  {
    ParseJoinRoundTrip(ParseList(s));
  }

  /** `toLowerCase` on the ASCII letters. */
  function LowerChar(c: char): (r: char)
    ensures 'A' <= c <= 'Z' ==> r as int == c as int + 32
    ensures !('A' <= c <= 'Z') ==> r == c
  {
    if 'A' <= c <= 'Z' then (c as int + 32) as char else c
  }

  function ToLower(s: string): (r: string)
    ensures |r| == |s|
    ensures forall i :: 0 <= i < |s| ==> r[i] == LowerChar(s[i])
    ensures forall i :: 0 <= i < |r| ==> !('A' <= r[i] <= 'Z')
  {
    seq(|s|, i requires 0 <= i < |s| => LowerChar(s[i]))
  }

  lemma ToLowerIdempotent(s: string)
    ensures ToLower(ToLower(s)) == ToLower(s)
  {
  }
}
