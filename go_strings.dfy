/** The parts of Go's `strings` and `strconv` packages that the server relies on.
    A Go string is a sequence of bytes; here each `char` stands for one byte. */
module GoStrings {
  import opened Wrappers

  /** A Go `[]byte`; the same bytes as a Go string. */
  type Bytes = string

  const CRLF: string := "\r\n"

  /** A prefix one element longer is the shorter prefix and that element. */
  lemma TakeSnoc<T>(s: seq<T>, i: int)
    requires 0 <= i < |s|
    ensures s[..i + 1] == s[..i] + [s[i]]
  {
  }

  /** `sep` occurs in `s` starting at index `i`. */
  ghost predicate OccursAt(s: string, sep: string, i: int)
  {
    0 <= i && i + |sep| <= |s| && s[i..i + |sep|] == sep
  }

  ghost predicate Free(s: string, sep: string)
  {
    forall j :: !OccursAt(s, sep, j)
  }

  /** strings.Index: the first index at which `sep` occurs, or -1. */
  function Index(s: string, sep: string): (i: int)
    requires sep != ""
    ensures -1 <= i <= |s|
    ensures i == -1 ==> Free(s, sep)
    ensures i != -1 ==> OccursAt(s, sep, i) && forall j :: 0 <= j < i ==> !OccursAt(s, sep, j)
    decreases |s|
  {
    if |s| < |sep| then -1
    else if s[..|sep|] == sep then 0
    else
      var k := Index(s[1..], sep);
      assert forall j :: 1 <= j ==> (OccursAt(s, sep, j) <==> OccursAt(s[1..], sep, j - 1)) by {
        forall j | 1 <= j
          ensures OccursAt(s, sep, j) <==> OccursAt(s[1..], sep, j - 1)
        {
          if j + |sep| <= |s| {
            var here, there := s[j..j + |sep|], s[1..][j - 1..j - 1 + |sep|];
            assert forall k :: 0 <= k < |sep| ==> here[k] == there[k];
            assert here == there;
          }
        }
      }
      if k == -1 then -1 else k + 1
  }

  /** The index is unique: an occurrence with none before it is the one Index returns. */
  lemma IndexIs(s: string, sep: string, i: int)
    requires sep != ""
    requires OccursAt(s, sep, i)
    requires forall j :: 0 <= j < i ==> !OccursAt(s, sep, j)
    ensures Index(s, sep) == i
  {
  }

  datatype CutResult = CutResult(before: string, after: string, found: bool)

  /** strings.Cut: slices `s` around the first instance of `sep`. */
  function Cut(s: string, sep: string): (r: CutResult)
    requires sep != ""
    ensures r.found ==> s == r.before + sep + r.after
    ensures r.found ==> forall j :: 0 <= j < |r.before| ==> !OccursAt(s, sep, j)
    ensures !r.found ==> r.before == s && r.after == "" && Free(s, sep)
  {
    var i := Index(s, sep);
    if i == -1 then CutResult(s, "", false)
    else
      assert s == s[..i] + sep + s[i + |sep|..];
      CutResult(s[..i], s[i + |sep|..], true)
  }

  /** strings.Join */
  function Join(parts: seq<string>, sep: string): string
  {
    if |parts| == 0 then ""
    else if |parts| == 1 then parts[0]
    else parts[0] + sep + Join(parts[1..], sep)
  }

  /** strings.Split with a non-empty separator. */
  function Split(s: string, sep: string): (parts: seq<string>)
    requires sep != ""
    ensures |parts| >= 1
    ensures Join(parts, sep) == s
    ensures forall i :: 0 <= i < |parts| ==> Free(parts[i], sep)
    decreases |s|
  {
    var c := Cut(s, sep);
    if c.found then
      CutBeforeFree(s, sep);
      [c.before] + Split(c.after, sep)
    else
      [s]
  }

  /** The text before the first separator holds no separator. */
  lemma CutBeforeFree(s: string, sep: string)
    requires sep != ""
    ensures Free(Cut(s, sep).before, sep)
  {
    var c := Cut(s, sep);
    if c.found {
      forall j | 0 <= j < |c.before|
        ensures !OccursAt(c.before, sep, j)
      {
        if j + |sep| <= |c.before| {
          assert s[..|c.before|] == c.before;
          assert s[j..j + |sep|] == c.before[j..j + |sep|];
          assert !OccursAt(s, sep, j);
        }
      }
    }
  }

  /** Splitting a join gives the parts back when no part contains the separator's first character. */
  lemma {:induction false} SplitJoin(parts: seq<string>, sep: string)
    requires sep != "" && |parts| >= 1
    requires forall i :: 0 <= i < |parts| ==> sep[0] !in parts[i]
    ensures Split(Join(parts, sep), sep) == parts
    decreases |parts|
  {
    if |parts| == 1 {
      NoFirstCharFree(parts[0], sep);
    } else {
      var rest := Join(parts[1..], sep);
      IndexAfterClean(parts[0], sep, rest);
      var c := Cut(Join(parts, sep), sep);
      assert c.before == parts[0] && c.after == rest;
      SplitJoin(parts[1..], sep);
    }
  }

  lemma NoFirstCharFree(s: string, sep: string)
    requires sep != "" && sep[0] !in s
    ensures Free(s, sep)
  {
    forall j | 0 <= j < |s|
      ensures !OccursAt(s, sep, j)
    {
      if j + |sep| <= |s| {
        assert s[j..j + |sep|][0] == s[j];
      }
    }
  }

  /** The first occurrence of `sep` in `a + sep + b` is right after `a` when `a` lacks `sep[0]`. */
  lemma IndexAfterClean(a: string, sep: string, b: string)
    requires sep != "" && sep[0] !in a
    ensures Index(a + sep + b, sep) == |a|
  {
    var s := a + sep + b;
    assert s[|a|..|a| + |sep|] == sep;
    forall j | 0 <= j < |a|
      ensures !OccursAt(s, sep, j)
    {
      assert s[j] == a[j];
    }
    IndexIs(s, sep, |a|);
  }

  /** Index skips a prefix that holds no occurrence. */
  lemma IndexShift(a: string, b: string, sep: string)
    requires sep != ""
    requires forall j :: 0 <= j < |a| ==> !OccursAt(a + b, sep, j)
    ensures Index(a + b, sep) == if Index(b, sep) == -1 then -1 else |a| + Index(b, sep)
  {
    var s := a + b;
    forall j | |a| <= j
      ensures OccursAt(s, sep, j) <==> OccursAt(b, sep, j - |a|)
    {
      if j + |sep| <= |s| {
        assert s[j..j + |sep|] == b[j - |a|..j - |a| + |sep|];
      }
    }
    var k := Index(b, sep);
    if k != -1 {
      IndexIs(s, sep, |a| + k);
    }
  }

  /** A one-character separator is absent exactly when its character is. */
  lemma FreeChar(s: string, c: char)
    ensures Free(s, [c]) <==> c !in s
  {
    if c in s {
      var j :| 0 <= j < |s| && s[j] == c;
      assert OccursAt(s, [c], j);
    } else {
      NoFirstCharFree(s, [c]);
    }
  }

  // ---------------------------------------------------------------- whitespace

  /** The ASCII characters unicode.IsSpace accepts. */
  predicate IsSpace(c: char)
  {
    c == ' ' || c == '\t' || c == '\n' || c == '\r' || c == '\U{B}' || c == '\U{C}'
  }

  function TrimLeft(s: string): string
  {
    if s != [] && IsSpace(s[0]) then TrimLeft(s[1..]) else s
  }

  function TrimRight(s: string): string
  {
    if s != [] && IsSpace(s[|s| - 1]) then TrimRight(s[..|s| - 1]) else s
  }

  /** strings.TrimSpace, restricted to ASCII white space. */
  function TrimSpace(s: string): string
  {
    TrimRight(TrimLeft(s))
  }

  lemma {:induction false} TrimLeftShape(s: string)
    ensures var r := TrimLeft(s);
      |r| <= |s| && r == s[|s| - |r|..] &&
      (forall k :: 0 <= k < |s| - |r| ==> IsSpace(s[k])) &&
      (r == "" || !IsSpace(r[0]))
  {
    if s != [] && IsSpace(s[0]) {
      var r := TrimLeft(s[1..]);
      TrimLeftShape(s[1..]);
      assert TrimLeft(s) == r;
      assert s[1..][|s| - 1 - |r|..] == s[|s| - |r|..];
      forall k | 0 <= k < |s| - |r| ensures IsSpace(s[k]) {
        if k > 0 { assert s[k] == s[1..][k - 1]; }
      }
    }
  }

  lemma {:induction false} TrimRightShape(s: string)
    ensures var r := TrimRight(s);
      |r| <= |s| && r == s[..|r|] &&
      (forall k :: |r| <= k < |s| ==> IsSpace(s[k])) &&
      (r == "" || !IsSpace(r[|r| - 1]))
  {
    if s != [] && IsSpace(s[|s| - 1]) {
      TrimRightShape(s[..|s| - 1]);
    }
  }

  /** `r` is the slice of `s` that starts at `i`, and only white space lies outside it. */
  predicate SpaceAround(s: string, r: string, i: int)
  {
    0 <= i <= |s| - |r| && s[i..][..|r|] == r &&
    (forall k :: 0 <= k < i ==> IsSpace(s[k])) &&
    (forall k :: i + |r| <= k < |s| ==> IsSpace(s[k]))
  }

  /** TrimSpace removes exactly the white space at both ends: what is left is a slice of `s` that
      neither starts nor ends with white space, and only white space lies outside it. */
  lemma TrimSpaceShape(s: string)
    ensures TrimSpace(s) == "" || (!IsSpace(TrimSpace(s)[0]) && !IsSpace(TrimSpace(s)[|TrimSpace(s)| - 1]))
    ensures exists i :: SpaceAround(s, TrimSpace(s), i)
  {
    var l := TrimLeft(s);
    TrimLeftShape(s);
    TrimRightShape(l);
    var r := TrimRight(l);
    var i := |s| - |l|;
    assert s[i..] == l;
    assert s[i..][..|r|] == r;
    forall k | i + |r| <= k < |s|
      ensures IsSpace(s[k])
    {
      assert s[k] == l[k - i];
    }
    assert SpaceAround(s, r, i);
  }

  // ---------------------------------------------------------------- decimal numbers

  predicate IsDigit(c: char)
  {
    '0' <= c <= '9'
  }

  predicate AllDigits(s: string)
  {
    forall k :: 0 <= k < |s| ==> IsDigit(s[k])
  }

  /** The value of a string of decimal digits, most significant first. */
  function DecValue(s: string): nat
    requires AllDigits(s)
  {
    if s == [] then 0 else DecValue(s[..|s| - 1]) * 10 + (s[|s| - 1] as int - '0' as int)
  }

  /** The shortest decimal digits of `n`. */
  function NatToDec(n: nat): (r: string)
    ensures r != [] && AllDigits(r)
    ensures |r| > 1 ==> r[0] != '0'
  {
    if n < 10 then [('0' as int + n) as char]
    else NatToDec(n / 10) + [('0' as int + n % 10) as char]
  }

  /** strconv.Itoa: decimal text, with a leading '-' for negative numbers. */
  function Itoa(n: int): (r: string)
    ensures r != []
  {
    if n < 0 then "-" + NatToDec(-n) else NatToDec(n)
  }

  /** strconv.Atoi on a 64-bit-safe input: an optional sign and at least one decimal digit. */
  function Atoi(s: string): (r: Option<int>)
    ensures r.Some? ==> s != []
    ensures r.Some? && r.value < 0 ==> s[0] == '-'
  {
    if s == [] then None
    else if s[0] == '+' || s[0] == '-' then
      var digits := s[1..];
      if digits == [] || !AllDigits(digits) then None
      else if s[0] == '-' then Some(0 - DecValue(digits)) else Some(DecValue(digits))
    else if AllDigits(s) then Some(DecValue(s))
    else None
  }

  lemma {:induction false} DecValueNatToDec(n: nat)
    ensures DecValue(NatToDec(n)) == n
  {
    if n >= 10 {
      var d := NatToDec(n / 10);
      var r := NatToDec(n);
      assert r[..|r| - 1] == d;
      DecValueNatToDec(n / 10);
    }
  }

  /** Atoi reads a '-' followed by digits as the negated value of the digits. */
  lemma AtoiNegative(digits: string)
    requires digits != [] && AllDigits(digits)
    ensures Atoi("-" + digits) == Some(0 - DecValue(digits))
  {
    var s := "-" + digits;
    assert s[0] == '-' && s[1..] == digits;
  }

  /** Atoi reads plain digits as their value. */
  lemma AtoiDigits(digits: string)
    requires digits != [] && AllDigits(digits)
    ensures Atoi(digits) == Some(DecValue(digits))
  {
    assert IsDigit(digits[0]);
  }

  /** Itoa and Atoi are inverse: the decimal rendering of a number reads back as the number. */
  lemma AtoiItoa(n: int)
    ensures Atoi(Itoa(n)) == Some(n)
  {
    if n < 0 {
      DecValueNatToDec(-n);
      AtoiNegative(NatToDec(-n));
    } else {
      DecValueNatToDec(n);
      AtoiDigits(NatToDec(n));
    }
  }
}
