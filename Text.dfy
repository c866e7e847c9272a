/** Optional values, used wherever the Go code reports "not found" or "could not parse". */
module Wrappers {
  datatype Option<+T> = None | Some(value: T)
}

/**
 * The parts of Go's `strings`, `strconv`/`fmt` and `encoding/hex` packages that the bot
 * relies on, stated over Dafny strings (sequences of Unicode code points).
 */
module Text {
  import opened Wrappers

  // ---------------------------------------------------------------------------------------
  // Searching and splitting (strings.Index, strings.Contains, strings.Split, strings.Join)
  // ---------------------------------------------------------------------------------------

  /** `sep` occurs in `s` starting at position `j`. */
  predicate OccursAt(s: string, sep: string, j: nat) {
    j + |sep| <= |s| && s[j..j + |sep|] == sep
  }

  /** strings.Index: the leftmost position at which `sep` occurs in `s`. */
  function IndexOf(s: string, sep: string): (r: Option<nat>)
    ensures r.Some? ==> OccursAt(s, sep, r.value)
    ensures r.Some? ==> forall j :: 0 <= j < r.value ==> !OccursAt(s, sep, j)
    ensures r.None? ==> forall j: nat :: !OccursAt(s, sep, j)
    decreases |s|
  {
    if |s| < |sep| then None
    else if s[..|sep|] == sep then Some(0)
    else
      OccursShift(s, sep);
      match IndexOf(s[1..], sep)
      case None => None
      case Some(i) => Some(i + 1)
  }

  /** An occurrence at j >= 1 in `s` is an occurrence at j - 1 in `s[1..]`. */
  lemma OccursShift(s: string, sep: string)
    requires |s| > 0
    ensures forall j: nat :: 1 <= j ==> (OccursAt(s, sep, j) <==> OccursAt(s[1..], sep, j - 1))
  {
    forall j: nat | 1 <= j ensures OccursAt(s, sep, j) <==> OccursAt(s[1..], sep, j - 1) {
      if j + |sep| <= |s| {
        SliceOfTail(s, j, |sep|);
      }
    }
  }

  /** A slice of `s[1..]` is the slice of `s` one position further on. */
  lemma SliceOfTail(s: string, j: nat, n: nat)
    requires 1 <= j && j + n <= |s|
    ensures s[j..j + n] == s[1..][j - 1..j - 1 + n]
  {
    var a, b := s[j..j + n], s[1..][j - 1..j - 1 + n];
    forall k | 0 <= k < n ensures a[k] == b[k] {
    }
  }

  /** strings.Contains. */
  predicate Contains(s: string, sep: string) {
    IndexOf(s, sep).Some?
  }

  /** strings.Contains holds exactly when some position of `s` starts an occurrence of `sep`. */
  lemma ContainsIff(s: string, sep: string, j: nat)
    ensures OccursAt(s, sep, j) ==> Contains(s, sep)
    ensures Contains(s, sep) ==> OccursAt(s, sep, IndexOf(s, sep).value)
  {
  }

  /** strings.Split for a non-empty separator: the pieces of `s` around each leftmost,
      non-overlapping occurrence of `sep`. */
  function Split(s: string, sep: string): (parts: seq<string>)
    requires |sep| > 0
    ensures |parts| >= 1
    decreases |s|
  {
    match IndexOf(s, sep)
    case None => [s]
    case Some(i) => [s[..i]] + Split(s[i + |sep|..], sep)
  }

  /** Split yields at least two pieces exactly when the separator occurs. */
  lemma SplitCount(s: string, sep: string)
    requires |sep| > 0
    ensures |Split(s, sep)| >= 2 <==> Contains(s, sep)
  {
  }

  /** strings.Join. */
  function Join(parts: seq<string>, sep: string): string {
    if |parts| == 0 then ""
    else if |parts| == 1 then parts[0]
    else parts[0] + sep + Join(parts[1..], sep)
  }

  /** Splitting loses nothing: joining the pieces back with the separator gives the input. */
  lemma {:induction false} JoinSplit(s: string, sep: string)
    requires |sep| > 0
    ensures Join(Split(s, sep), sep) == s
    decreases |s|
  {
    match IndexOf(s, sep)
    case None =>
    case Some(i) =>
      var rest := s[i + |sep|..];
      JoinSplit(rest, sep);
      JoinCons(s[..i], Split(rest, sep), sep);
      SeparatorAt(s, sep, i);
  }

  /** Joining a piece in front of at least one other piece puts a separator between them. */
  lemma JoinCons(p: string, rest: seq<string>, sep: string)
    requires |rest| >= 1
    ensures Join([p] + rest, sep) == p + sep + Join(rest, sep)
  {
    assert ([p] + rest)[1..] == rest;
  }

  /** An occurrence of `sep` at `i` cuts `s` into the text before, `sep` and the text after. */
  lemma SeparatorAt(s: string, sep: string, i: nat)
    requires OccursAt(s, sep, i)
    ensures s == s[..i] + sep + s[i + |sep|..]
  {
    assert s == s[..i] + s[i..i + |sep|] + s[i + |sep|..];
  }

  /** No piece produced by Split contains the separator. */
  lemma {:induction false} SplitPiecesFree(s: string, sep: string)
    requires |sep| > 0
    ensures forall k :: 0 <= k < |Split(s, sep)| ==> !Contains(Split(s, sep)[k], sep)
    decreases |s|
  {
    match IndexOf(s, sep)
    case None =>
    case Some(i) =>
      SplitPiecesFree(s[i + |sep|..], sep);
      var head := s[..i];
      PrefixOccurrences(s, i, sep);
      var parts := Split(s, sep);
      forall k | 0 <= k < |parts| ensures !Contains(parts[k], sep) {
        if k > 0 {
          assert parts[k] == Split(s[i + |sep|..], sep)[k - 1];
        }
      }
  }

  /** An occurrence inside a prefix of `s` is an occurrence in `s` that ends within the prefix. */
  lemma PrefixOccurrences(s: string, n: nat, sep: string)
    requires n <= |s|
    ensures forall j: nat :: OccursAt(s[..n], sep, j) ==> OccursAt(s, sep, j) && j + |sep| <= n
  {
    forall j: nat | OccursAt(s[..n], sep, j) ensures OccursAt(s, sep, j) && j + |sep| <= n {
      assert s[..n][j..j + |sep|] == s[j..j + |sep|];
    }
  }

  /** The first piece is everything before the first separator; the second piece (when there is
      one) is everything between the first and the second separator. */
  lemma SplitFirstPieces(s: string, sep: string)
    requires |sep| > 0
    ensures IndexOf(s, sep).None? ==> Split(s, sep) == [s]
    ensures IndexOf(s, sep).Some? ==>
      var i := IndexOf(s, sep).value;
      var rest := s[i + |sep|..];
      && Split(s, sep)[0] == s[..i]
      && Split(s, sep)[1] == (match IndexOf(rest, sep) case None => rest case Some(k) => rest[..k])
  {
    SplitHead(s, sep);
    if IndexOf(s, sep).Some? {
      var i := IndexOf(s, sep).value;
      var rest := s[i + |sep|..];
      SplitAtFirst(s, sep, i, rest);
      SplitHead(rest, sep);
    }
  }

  /** Past the first separator, the pieces are those of the rest. */
  lemma SplitAtFirst(s: string, sep: string, i: nat, rest: string)
    requires |sep| > 0 && IndexOf(s, sep) == Some(i) && rest == s[i + |sep|..]
    ensures Split(s, sep)[1..] == Split(rest, sep)
  {
    var parts := Split(s, sep);
    assert parts == [s[..i]] + Split(rest, sep);
  }

  /** The first piece of a split: everything before the first separator, or all of it. */
  lemma SplitHead(s: string, sep: string)
    requires |sep| > 0
    ensures Split(s, sep)[0] == (match IndexOf(s, sep) case None => s case Some(k) => s[..k])
    ensures IndexOf(s, sep).None? ==> Split(s, sep) == [s]
  {
  }


  /** With a one-character separator absent from `a`, the string is one piece. */
  lemma SplitWithout(a: string, c: char)
    requires c !in a
    ensures Split(a, [c]) == [a]
  {
    forall j: nat ensures !OccursAt(a, [c], j) {
      if j + 1 <= |a| {
        assert a[j..j + 1] == [a[j]];
      }
    }
    assert IndexOf(a, [c]).None?;
    var parts := Split(a, [c]);
    assert parts == [a];
  }

  /** With a one-character separator absent from `a`, `a` is the first piece of `a + c + b`. */
  lemma SplitAround(a: string, c: char, b: string)
    requires c !in a
    ensures Split(a + [c] + b, [c]) == [a] + Split(b, [c])
  {
    var s := a + [c] + b;
    assert OccursAt(s, [c], |a|) by { assert s[|a|..|a| + 1] == [c]; }
    var r := IndexOf(s, [c]);
    assert r.Some?;
    var i := r.value;
    forall j: nat | j < |a| ensures !OccursAt(s, [c], j) {
      assert s[j..j + 1] == [a[j]];
    }
    assert i == |a|;
    assert s[..i] == a && s[i + 1..] == b;
    assert Split(s, [c]) == [s[..i]] + Split(s[i + 1..], [c]);
  }

  // ---------------------------------------------------------------------------------------
  // White space and case (unicode.IsSpace, strings.TrimSpace, strings.ToLower)
  // ---------------------------------------------------------------------------------------

  /** unicode.IsSpace: the Latin-1 spaces plus the other White_Space code points. */
  predicate IsSpace(c: char) {
    || ('\t' <= c <= '\r') || c == ' ' || c == '\U{85}' || c == '\U{A0}'
    || c == '\U{1680}' || ('\U{2000}' <= c <= '\U{200A}') || c == '\U{2028}' || c == '\U{2029}'
    || c == '\U{202F}' || c == '\U{205F}' || c == '\U{3000}'
  }

  /** The end of the run of white space that starts at index `i`. */
  function SpaceRunEnd(s: string, i: nat): (k: nat)
    requires i <= |s|
    ensures i <= k <= |s|
    ensures forall j :: i <= j < k ==> IsSpace(s[j])
    ensures k < |s| ==> !IsSpace(s[k])
    decreases |s| - i
  {
    if i < |s| && IsSpace(s[i]) then SpaceRunEnd(s, i + 1) else i
  }

  /** The start of the run of white space that ends just before index `k`. */
  function SpaceRunStart(s: string, k: nat): (j: nat)
    requires k <= |s|
    ensures j <= k
    ensures forall m :: j <= m < k ==> IsSpace(s[m])
    ensures j > 0 ==> !IsSpace(s[j - 1])
  {
    if k > 0 && IsSpace(s[k - 1]) then SpaceRunStart(s, k - 1) else k
  }

  /** Drops the maximal run of leading white space. */
  function TrimLeft(s: string): (r: string)
    ensures |r| <= |s| && r == s[|s| - |r|..]
    ensures forall i :: 0 <= i < |s| - |r| ==> IsSpace(s[i])
    ensures r != [] ==> !IsSpace(r[0])
  {
    s[SpaceRunEnd(s, 0)..]
  }

  /** Drops the maximal run of trailing white space. */
  function TrimRight(s: string): (r: string)
    ensures |r| <= |s| && r == s[..|r|]
    ensures forall i :: |r| <= i < |s| ==> IsSpace(s[i])
    ensures r != [] ==> !IsSpace(r[|r| - 1])
  {
    s[..SpaceRunStart(s, |s|)]
  }

  /** strings.TrimSpace. */
  function TrimSpace(s: string): string {
    TrimRight(TrimLeft(s))
  }

  /** TrimSpace removes exactly the leading and trailing white space: the result is a contiguous
      slice of the input, everything cut off is white space, and the result neither starts nor
      ends with white space. */
  lemma TrimSpaceSlice(s: string)
    ensures var r := TrimSpace(s); var a := |s| - |TrimLeft(s)|;
      && a + |r| <= |s| && r == s[a..a + |r|]
      && (forall i :: 0 <= i < a ==> IsSpace(s[i]))
      && (forall i :: a + |r| <= i < |s| ==> IsSpace(s[i]))
      && (r != [] ==> !IsSpace(r[0]) && !IsSpace(r[|r| - 1]))
  {
    var l := TrimLeft(s);
    var r := TrimRight(l);
    PrefixOfSuffix(s, l, r);
    if r != [] {
      assert r[0] == l[0];
    }
  }

  /** A string neither starting nor ending with white space. */
  predicate Unpadded(s: string) {
    s == [] || (!IsSpace(s[0]) && !IsSpace(s[|s| - 1]))
  }

  /** The strings TrimSpace leaves alone are exactly those that neither start nor end with white
      space. */
  lemma TrimSpaceFixedPoint(s: string)
    ensures TrimSpace(s) == s <==> Unpadded(s)
  {
    TrimSpaceSlice(s);
    if Unpadded(s) {
      TrimSpacePadded([], s, []);
      assert [] + s + [] == s;
    }
  }

  /** White space around a string that neither starts nor ends with white space is exactly what
      TrimSpace removes. */
  lemma TrimSpacePadded(pre: string, s: string, post: string)
    requires forall i :: 0 <= i < |pre| ==> IsSpace(pre[i])
    requires forall i :: 0 <= i < |post| ==> IsSpace(post[i])
    requires Unpadded(s)
    ensures TrimSpace(pre + s + post) == s
  {
    var t := pre + s + post;
    var a := SpaceRunEnd(t, 0);
    if s == [] {
      assert forall i :: 0 <= i < |t| ==> IsSpace(t[i]);
      assert a == |t|;
    } else {
      assert t[|pre|] == s[0];
      assert forall i :: 0 <= i < |pre| ==> t[i] == pre[i];
      assert a == |pre|;
      var l := TrimLeft(t);
      assert l == s + post;
      var b := SpaceRunStart(l, |l|);
      assert l[|s| - 1] == s[|s| - 1];
      assert forall i :: |s| <= i < |l| ==> l[i] == post[i - |s|];
      assert b == |s|;
      assert l[..b] == s;
    }
  }

  /** A prefix `r` of a suffix `l` of `s` is a slice of `s`, and what lies after it in `s` lies
      after it in `l`. */
  lemma PrefixOfSuffix(s: string, l: string, r: string)
    requires |l| <= |s| && l == s[|s| - |l|..]
    requires |r| <= |l| && r == l[..|r|]
    ensures var a := |s| - |l|; r == s[a..a + |r|]
    ensures forall i :: |s| - |l| + |r| <= i < |s| ==> s[i] == l[i - (|s| - |l|)]
  {
  }

  /** unicode.ToLower restricted to ASCII letters. */
  function LowerChar(c: char): char {
    if 'A' <= c <= 'Z' then (c as int + 32) as char else c
  }

  /** strings.ToLower (ASCII letters only). */
  function ToLower(s: string): (r: string)
    ensures |r| == |s|
    ensures forall i :: 0 <= i < |s| ==> r[i] == LowerChar(s[i])
  {
    seq(|s|, i requires 0 <= i < |s| => LowerChar(s[i]))
  }

  /** Lower-casing leaves no upper-case ASCII letter and is idempotent. */
  lemma ToLowerIdempotent(s: string)
    ensures forall i :: 0 <= i < |s| ==> !('A' <= ToLower(s)[i] <= 'Z')
    ensures ToLower(ToLower(s)) == ToLower(s)
  {
  }

  // ---------------------------------------------------------------------------------------
  // Decimal integers (fmt "%d" formatting and scanning)
  // ---------------------------------------------------------------------------------------

  /** The range of Go's 64-bit `int` and `int64`. */
  predicate InInt64(n: int) {
    -0x8000_0000_0000_0000 <= n < 0x8000_0000_0000_0000
  }

  predicate IsDigit(c: char) {
    '0' <= c <= '9'
  }

  predicate AllDigits(s: string) {
    forall i :: 0 <= i < |s| ==> IsDigit(s[i])
  }

  function DigitChar(d: nat): (c: char)
    requires d < 10
    ensures IsDigit(c)
  {
    ('0' as int + d) as char
  }

  /** The decimal numeral of a natural number, most significant digit first, without leading zeros. */
  function NatToDecimal(n: nat): (r: string)
    ensures |r| > 0 && AllDigits(r)
    decreases n
  {
    if n < 10 then [DigitChar(n)] else NatToDecimal(n / 10) + [DigitChar(n % 10)]
  }

  /** fmt.Sprintf("%d", n). */
  function FormatInt(n: int): (r: string)
    ensures |r| > 0
    ensures forall i :: 0 <= i < |r| ==> IsDigit(r[i]) || (i == 0 && r[i] == '-')
  {
    if n < 0 then "-" + NatToDecimal(-n) else NatToDecimal(n)
  }

  /** The value of a string of decimal digits. */
  function DigitsValue(s: string): nat
    requires AllDigits(s)
  {
    if s == [] then 0 else DigitsValue(s[..|s| - 1]) * 10 + (s[|s| - 1] as int - '0' as int)
  }

  lemma {:induction false} DigitsValueOfDecimal(n: nat)
    ensures DigitsValue(NatToDecimal(n)) == n
    decreases n
  {
    if n >= 10 {
      DigitsValueOfDecimal(n / 10);
      var s := NatToDecimal(n);
      assert s[..|s| - 1] == NatToDecimal(n / 10);
    }
  }

  /** The length of the run of decimal digits at the start of `s`. */
  function DigitRun(s: string): (k: nat)
    ensures k <= |s| && AllDigits(s[..k])
    ensures k < |s| ==> !IsDigit(s[k])
    decreases |s|
  {
    if |s| > 0 && IsDigit(s[0]) then
      var k := 1 + DigitRun(s[1..]);
      assert forall i :: 1 <= i < k ==> s[..k][i] == s[1..][..k - 1][i - 1];
      k
    else 0
  }

  /** fmt.Sscanf(s, "%d", &v): an optional sign followed by at least one decimal digit, read as far
      as the digits go; None when there is no digit or the value does not fit a 64-bit int, in
      which case the Go variable keeps its previous value. */
  function ScanInt(s: string): Option<int> {
    if |s| > 0 && (s[0] == '+' || s[0] == '-') then ScanMagnitude(s[1..], s[0] == '-')
    else ScanMagnitude(s, false)
  }

  /** The digits at the start of `t`, negated when a minus sign preceded them. */
  function ScanMagnitude(t: string, negative: bool): Option<int> {
    var k := DigitRun(t);
    if k == 0 then None
    else
      var magnitude := DigitsValue(t[..k]);
      var v: int := if negative then -(magnitude as int) else magnitude;
      if InInt64(v) then Some(v) else None
  }

  /** Scanning a formatted 64-bit integer gives it back. */
  lemma ScanFormatInt(n: int)
    requires InInt64(n)
    ensures ScanInt(FormatInt(n)) == Some(n)
  {
    if n < 0 {
      DigitsValueOfDecimal(-n);
      ScanNegative(NatToDecimal(-n));
    } else {
      DigitsValueOfDecimal(n);
      ScanUnsigned(NatToDecimal(n));
    }
  }

  /** A run of digits is read in full. */
  lemma DigitRunAll(s: string)
    requires AllDigits(s)
    ensures DigitRun(s) == |s|
  {
  }

  /** Scanning digits without a sign reads their value. */
  lemma ScanUnsigned(d: string)
    requires |d| > 0 && AllDigits(d)
    ensures ScanInt(d) == if InInt64(DigitsValue(d)) then Some(DigitsValue(d)) else None
  {
    ScanAllDigits(d, false);
  }

  /** Scanning a minus sign and digits reads the negated value. */
  lemma ScanNegative(d: string)
    requires |d| > 0 && AllDigits(d)
    ensures var v := -(DigitsValue(d) as int); ScanInt("-" + d) == if InInt64(v) then Some(v) else None
  {
    var s := "-" + d;
    assert s[0] == '-' && s[1..] == d;
    ScanAllDigits(d, true);
  }

  /** A string made only of digits is read in full. */
  lemma ScanAllDigits(d: string, negative: bool)
    requires |d| > 0 && AllDigits(d)
    ensures var v := if negative then -(DigitsValue(d) as int) else DigitsValue(d);
      ScanMagnitude(d, negative) == if InInt64(v) then Some(v) else None
  {
    DigitRunAll(d);
    assert d[..|d|] == d;
  }

  /** A string with no decimal digit scans to nothing. */
  lemma ScanIntNoDigits(s: string)
    requires forall i :: 0 <= i < |s| ==> !IsDigit(s[i])
    ensures ScanInt(s) == None
  {
    if |s| > 1 {
      assert s[1..][0] == s[1];
    }
  }

  /** fmt's %d formatting is injective. */
  lemma {:induction false} FormatIntInjective(m: int, n: int)
    requires FormatInt(m) == FormatInt(n)
    ensures m == n
  {
    assert (m < 0) == (FormatInt(m)[0] == '-') && (n < 0) == (FormatInt(n)[0] == '-');
    if m < 0 {
      assert NatToDecimal(-m) == FormatInt(m)[1..] == NatToDecimal(-n);
      DigitsValueOfDecimal(-m);
      DigitsValueOfDecimal(-n);
    } else {
      DigitsValueOfDecimal(m);
      DigitsValueOfDecimal(n);
    }
  }

  // ---------------------------------------------------------------------------------------
  // Hexadecimal (encoding/hex)
  // ---------------------------------------------------------------------------------------

  newtype uint8 = x: int | 0 <= x < 256

  predicate IsLowerHex(c: char) {
    IsDigit(c) || 'a' <= c <= 'f'
  }

  function HexDigit(d: int): (c: char)
    requires 0 <= d < 16
    ensures IsLowerHex(c)
  {
    if d < 10 then ('0' as int + d) as char else ('a' as int + d - 10) as char
  }

  /** The value of a hexadecimal digit in either case (hex.DecodeString accepts both). */
  function HexValue(c: char): Option<int> {
    if IsDigit(c) then Some(c as int - '0' as int)
    else if 'a' <= c <= 'f' then Some(c as int - 'a' as int + 10)
    else if 'A' <= c <= 'F' then Some(c as int - 'A' as int + 10)
    else None
  }

  /** hex.EncodeToString: two lower-case digits per byte, high nibble first. */
  function HexEncode(bytes: seq<uint8>): (r: string)
    ensures |r| == 2 * |bytes|
    ensures forall i :: 0 <= i < |r| ==> IsLowerHex(r[i])
  {
    if bytes == [] then ""
    else [HexDigit(bytes[0] as int / 16), HexDigit(bytes[0] as int % 16)] + HexEncode(bytes[1..])
  }

  /** hex.DecodeString: None for an odd length or a character that is not a hex digit. */
  function HexDecode(s: string): Option<seq<uint8>>
    decreases |s|
  {
    if s == [] then Some([])
    else if |s| == 1 then None
    else match (HexValue(s[0]), HexValue(s[1]), HexDecode(s[2..]))
      case (Some(hi), Some(lo), Some(rest)) => Some([(hi * 16 + lo) as uint8] + rest)
      case _ => None
  }

  /** Reading a hex digit back gives its value. */
  lemma HexValueOfDigit(d: int)
    requires 0 <= d < 16
    ensures HexValue(HexDigit(d)) == Some(d)
  {
  }

  /** Decoding an encoded byte string gives the bytes back, so distinct random bytes give
      distinct identifiers. */
  lemma {:induction false} HexRoundTrip(bytes: seq<uint8>)
    ensures HexDecode(HexEncode(bytes)) == Some(bytes)
  {
    if bytes != [] {
      HexRoundTrip(bytes[1..]);
      var b := bytes[0] as int;
      HexValueOfDigit(b / 16);
      HexValueOfDigit(b % 16);
      var s := HexEncode(bytes);
      assert s[2..] == HexEncode(bytes[1..]);
      assert ((b / 16) * 16 + b % 16) as uint8 == bytes[0];
      assert [bytes[0]] + bytes[1..] == bytes;
    }
  }
}
