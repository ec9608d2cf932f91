/** The text operations of Go's `strings` and `strconv` that the management servers
    call, written out over ASCII strings, with the laws their callers depend on. */
module Text {

  datatype Option<+T> = None | Some(value: T)

  /** The outcome of Go code that may index a slice out of range or follow a nil pointer. */
  datatype Outcome<+T> = Panic | Done(value: T)

  // ---- Prefixes and letter case ----

  predicate HasPrefix(s: string, prefix: string) {
    prefix <= s
  }

  function LowerChar(c: char): char {
    if 'A' <= c <= 'Z' then c - 'A' + 'a' else c
  }

  function UpperChar(c: char): char {
    if 'a' <= c <= 'z' then c - 'a' + 'A' else c
  }

  function ToLower(s: string): (r: string)
    ensures |r| == |s|
  {
    seq(|s|, i requires 0 <= i < |s| => LowerChar(s[i]))
  }

  function ToUpper(s: string): (r: string)
    ensures |r| == |s|
  {
    seq(|s|, i requires 0 <= i < |s| => UpperChar(s[i]))
  }

  /** The two cases of a letter stand at the same place in their alphabets; nothing else changes. */
  lemma LettersInTwoCases(c: char)
    ensures 'a' <= c <= 'z' ==> UpperChar(c) as int == c as int - 32 && LowerChar(c) == c
    ensures 'A' <= c <= 'Z' ==> LowerChar(c) as int == c as int + 32 && UpperChar(c) == c
    ensures !('a' <= c <= 'z') && !('A' <= c <= 'Z') ==> UpperChar(c) == c == LowerChar(c)
  {
  }

  /** Two texts agree in upper case exactly if they agree in lower case. */
  lemma SameLetters(s: string, t: string)
    ensures ToUpper(s) == ToUpper(t) <==> ToLower(s) == ToLower(t)
  {
    forall i | 0 <= i < |s| && |s| == |t|
      ensures ToUpper(s)[i] == ToUpper(t)[i] <==> ToLower(s)[i] == ToLower(t)[i]
    {
      LettersInTwoCases(s[i]);
      LettersInTwoCases(t[i]);
    }
    if |s| == |t| {
      if ToUpper(s) == ToUpper(t) {
        assert forall i :: 0 <= i < |s| ==> ToUpper(s)[i] == ToUpper(t)[i];
      }
      if ToLower(s) == ToLower(t) {
        assert forall i :: 0 <= i < |s| ==> ToLower(s)[i] == ToLower(t)[i];
      }
    }
  }

  /** A prefix in upper case is the same prefix in lower case. */
  lemma PrefixInTwoCases(s: string, lower: string, upper: string)
    requires ToUpper(lower) == upper && ToLower(lower) == lower
    ensures HasPrefix(ToUpper(s), upper) <==> HasPrefix(ToLower(s), lower)
  {
    if |s| >= |lower| {
      var front, back := s[..|lower|], s[|lower|..];
      assert s == front + back;
      UpperConcat(front, back);
      LowerConcat(front, back);
      SameLetters(front, lower);
    }
  }

  lemma LowerConcat(a: string, b: string)
    ensures ToLower(a + b) == ToLower(a) + ToLower(b)
  {
  }

  lemma UpperConcat(a: string, b: string)
    ensures ToUpper(a + b) == ToUpper(a) + ToUpper(b)
  {
  }

  // ---- Searching and splitting ----

  predicate OccursAt(s: string, sep: string, i: nat) {
    i + |sep| <= |s| && s[i..i + |sep|] == sep
  }

  /** The index of the leftmost occurrence of `sep`. */
  function Find(s: string, sep: string): (r: Option<nat>)
    ensures r.Some? ==> OccursAt(s, sep, r.value)
    ensures r.Some? ==> forall j: nat :: j < r.value ==> !OccursAt(s, sep, j)
    ensures r.None? ==> forall j: nat :: !OccursAt(s, sep, j)
  {
    FindFrom(s, sep, 0)
  }

  function FindFrom(s: string, sep: string, from: nat): (r: Option<nat>)
    requires from <= |s|
    ensures r.Some? ==> from <= r.value && OccursAt(s, sep, r.value)
    ensures r.Some? ==> forall j: nat :: from <= j < r.value ==> !OccursAt(s, sep, j)
    ensures r.None? ==> forall j: nat :: from <= j ==> !OccursAt(s, sep, j)
    decreases |s| - from
  {
    if OccursAt(s, sep, from) then Some(from)
    else if from == |s| then None
    else FindFrom(s, sep, from + 1)
  }

  /** Go's `strings.Split` for a non-empty separator: leftmost cuts, never overlapping. */
  function Split(s: string, sep: string): (r: seq<string>)
    requires |sep| > 0
    ensures |r| > 0
    decreases |s|
  {
    var cut := Find(s, sep);
    if cut.None? then [s]
    else [s[..cut.value]] + Split(s[cut.value + |sep|..], sep)
  }

  function Join(fields: seq<string>, sep: string): string {
    if |fields| == 0 then ""
    else if |fields| == 1 then fields[0]
    else fields[0] + sep + Join(fields[1..], sep)
  }

  /** A field that `Split` gives back when a separator follows it: the separator occurs
      first at its very end, not inside it and not straddling its last characters. */
  predicate CleanBefore(field: string, sep: string) {
    Find(field + sep, sep) == Some(|field|)
  }

  /** The field lists that survive joining and splitting. */
  predicate Separable(fields: seq<string>, sep: string) {
    && |fields| > 0
    && (forall i :: 0 <= i < |fields| - 1 ==> CleanBefore(fields[i], sep))
    && Find(fields[|fields| - 1], sep).None?
  }

  lemma FindInExtension(field: string, sep: string, rest: string)
    requires |sep| > 0
    ensures CleanBefore(field, sep) ==> Find(field + sep + rest, sep) == Some(|field|)
  {
    if CleanBefore(field, sep) {
      var t, u := field + sep + rest, field + sep;
      assert t[|field|..|field| + |sep|] == sep;
      assert OccursAt(t, sep, |field|);
      forall j: nat | j < |field|
        ensures !OccursAt(t, sep, j)
      {
        assert t[j..j + |sep|] == u[j..j + |sep|];
        assert !OccursAt(u, sep, j);
      }
    }
  }

  lemma {:induction false} SplitOfJoin(fields: seq<string>, sep: string)
    requires |sep| > 0 && Separable(fields, sep)
    ensures Split(Join(fields, sep), sep) == fields
  {
    if |fields| > 1 {
      var head, tail := fields[0], fields[1..];
      var s := Join(fields, sep);
      assert CleanBefore(head, sep);
      assert s == head + sep + Join(tail, sep);
      FindInExtension(head, sep, Join(tail, sep));
      assert s[..|head|] == head;
      assert s[|head| + |sep|..] == Join(tail, sep);
      assert forall i :: 0 <= i < |tail| ==> tail[i] == fields[i + 1];
      SplitOfJoin(tail, sep);
    }
  }

  /** What precedes the leftmost occurrence is clean before the separator. */
  lemma CutIsClean(s: string, sep: string)
    requires Find(s, sep).Some?
    ensures CleanBefore(s[..Find(s, sep).value], sep)
    ensures s == s[..Find(s, sep).value] + sep + s[Find(s, sep).value + |sep|..]
  {
    var cut := Find(s, sep).value;
    var head := s[..cut];
    var u := head + sep;
    assert s[cut..cut + |sep|] == sep;
    assert s[..cut + |sep|] == s[..cut] + s[cut..cut + |sep|];
    assert u == s[..cut + |sep|];
    assert u[|head|..|head| + |sep|] == sep;
    assert OccursAt(u, sep, |head|);
    forall j: nat | j < |head|
      ensures !OccursAt(u, sep, j)
    {
      assert u[j..j + |sep|] == s[j..j + |sep|];
      assert !OccursAt(s, sep, j);
    }
  }

  lemma {:induction false} SplitIsSeparable(s: string, sep: string)
    requires |sep| > 0
    ensures Separable(Split(s, sep), sep)
    ensures Join(Split(s, sep), sep) == s
    decreases |s|
  {
    var cut := Find(s, sep);
    if cut.Some? {
      var rest := s[cut.value + |sep|..];
      SplitIsSeparable(rest, sep);
      CutIsClean(s, sep);
      assert Split(s, sep)[1..] == Split(rest, sep);
    }
  }

  /** `Split` undoes `Join` on exactly the separable lists. */
  lemma SplitUndoesJoin(fields: seq<string>, sep: string)
    requires |sep| > 0
    ensures Split(Join(fields, sep), sep) == fields <==> Separable(fields, sep)
  {
    SplitIsSeparable(Join(fields, sep), sep);
    if Separable(fields, sep) {
      SplitOfJoin(fields, sep);
    }
  }

  /** For a one-character separator, clean means that the character does not occur. */
  lemma CleanBeforeChar(field: string, c: char)
    ensures CleanBefore(field, [c]) <==> c !in field
    ensures Find(field, [c]).None? <==> c !in field
  {
    var t := field + [c];
    assert t[|field|..|field| + 1] == [c];
    assert OccursAt(t, [c], |field|);
    forall j: nat | j < |field|
      ensures OccursAt(t, [c], j) <==> field[j] == c
      ensures OccursAt(field, [c], j) <==> field[j] == c
    {
      assert t[j..j + 1] == [field[j]];
      assert field[j..j + 1] == [field[j]];
    }
    if c in field {
      var k :| 0 <= k < |field| && field[k] == c;
      assert OccursAt(t, [c], k) && OccursAt(field, [c], k);
    }
  }

  lemma SplitOnChar(fields: seq<string>, c: char)
    requires |fields| > 0 && forall f :: f in fields ==> c !in f
    ensures Split(Join(fields, [c]), [c]) == fields
  {
    forall i | 0 <= i < |fields|
      ensures CleanBefore(fields[i], [c]) && Find(fields[i], [c]).None?
    {
      assert fields[i] in fields;
      CleanBeforeChar(fields[i], c);
    }
    SplitOfJoin(fields, [c]);
  }

  /** What precedes a separator is the first piece exactly when it is clean. */
  lemma FirstPiece(head: string, sep: string, rest: string)
    requires |sep| > 0
    ensures Split(head + sep + rest, sep)[0] == head <==> CleanBefore(head, sep)
  {
    var t, u := head + sep + rest, head + sep;
    assert u[|head|..|head| + |sep|] == sep;
    assert OccursAt(u, sep, |head|);
    var cut := Find(u, sep).value;
    if cut == |head| {
      FindInExtension(head, sep, rest);
      assert t[..|head|] == head;
    } else {
      assert cut < |head|;
      assert t[cut..cut + |sep|] == u[cut..cut + |sep|];
      assert OccursAt(t, sep, cut);
    }
  }

  /** The piece is the text up to the first separator, or all of it without one. */
  predicate UpTo(text: string, separator: char, piece: string) {
    piece <= text && separator !in piece && (|piece| == |text| || text[|piece|] == separator)
  }

  lemma FirstPieceIsUpTo(text: string, separator: char, piece: string)
    ensures Split(text, [separator])[0] == piece <==> UpTo(text, separator, piece)
  {
    CleanBeforeChar(piece, separator);
    CleanBeforeChar(text, separator);
    if UpTo(text, separator, piece) {
      if |piece| < |text| {
        assert text == piece + [separator] + text[|piece| + 1..];
        FirstPiece(piece, [separator], text[|piece| + 1..]);
      } else {
        assert text == piece;
      }
    }
    var cut := Find(text, [separator]);
    if cut.Some? {
      CutIsClean(text, [separator]);
      CleanBeforeChar(text[..cut.value], separator);
    }
  }

  // ---- White space ----

  predicate IsSpace(c: char) {
    c in "\t\n\r " || c == 11 as char || c == 12 as char
  }

  /** White space is what lies from tab to carriage return, and the blank. */
  lemma SpacesByCode(c: char)
    ensures IsSpace(c) <==> 9 <= c as int <= 13 || c as int == 32
  {
  }

  function TokenEnd(s: string): (n: nat)
    ensures n <= |s|
    ensures forall i :: 0 <= i < n ==> !IsSpace(s[i])
    ensures n < |s| ==> IsSpace(s[n])
  {
    if s == "" || IsSpace(s[0]) then 0 else 1 + TokenEnd(s[1..])
  }

  /** Go's `strings.Fields`: the maximal runs of characters that are not white space. */
  function Fields(s: string): (r: seq<string>)
    decreases |s|
  {
    if s == "" then []
    else if IsSpace(s[0]) then Fields(s[1..])
    else [s[..TokenEnd(s)]] + Fields(s[TokenEnd(s)..])
  }

  predicate Blank(s: string) {
    forall i :: 0 <= i < |s| ==> IsSpace(s[i])
  }

  predicate Token(s: string) {
    s != "" && forall i :: 0 <= i < |s| ==> !IsSpace(s[i])
  }

  /** Fields laid out with the given gaps in front of them and a blank tail. */
  function Spread(gaps: seq<string>, fields: seq<string>, tail: string): string
    requires |gaps| == |fields|
  {
    if fields == [] then tail else gaps[0] + fields[0] + Spread(gaps[1..], fields[1..], tail)
  }

  lemma {:induction false} FieldsSkipsBlanks(gap: string, s: string)
    requires Blank(gap)
    ensures Fields(gap + s) == Fields(s)
  {
    if gap == "" {
      assert gap + s == s;
    } else {
      assert (gap + s)[1..] == gap[1..] + s;
      FieldsSkipsBlanks(gap[1..], s);
    }
  }

  lemma TokenEndAt(field: string, rest: string)
    requires Token(field) && (rest == "" || IsSpace(rest[0]))
    ensures TokenEnd(field + rest) == |field|
  {
    var t := field + rest;
    assert forall i :: 0 <= i < |field| ==> t[i] == field[i];
    assert rest != "" ==> t[|field|] == rest[0];
  }

  lemma FieldsFirst(gap: string, field: string, rest: string)
    requires Blank(gap) && Token(field) && (rest == "" || IsSpace(rest[0]))
    ensures Fields(gap + field + rest) == [field] + Fields(rest)
  {
    var s := field + rest;
    assert gap + field + rest == gap + s;
    FieldsSkipsBlanks(gap, s);
    TokenEndAt(field, rest);
    assert s[..|field|] == field && s[|field|..] == rest && s[0] == field[0];
  }

  /** What follows a field is empty or starts with white space. */
  lemma SpreadStartsBlank(gaps: seq<string>, fields: seq<string>, tail: string)
    requires |gaps| == |fields| && Blank(tail) && (gaps != [] ==> Blank(gaps[0]) && gaps[0] != "")
    ensures var s := Spread(gaps, fields, tail); s == "" || IsSpace(s[0])
  {
    if fields != [] {
      assert Spread(gaps, fields, tail)[0] == gaps[0][0];
    }
  }

  /** Whatever the white space between, around and after them, fields come back as written. */
  lemma {:induction false} FieldsOfSpread(gaps: seq<string>, fields: seq<string>, tail: string)
    requires |gaps| == |fields| && Blank(tail)
    requires forall i :: 0 <= i < |fields| ==> Token(fields[i]) && Blank(gaps[i])
    requires forall i :: 0 < i < |gaps| ==> gaps[i] != ""
    ensures Fields(Spread(gaps, fields, tail)) == fields
  {
    if fields == [] {
      assert tail + "" == tail;
      FieldsSkipsBlanks(tail, "");
    } else {
      SpreadStartsBlank(gaps[1..], fields[1..], tail);
      FieldsFirst(gaps[0], fields[0], Spread(gaps[1..], fields[1..], tail));
      FieldsOfSpread(gaps[1..], fields[1..], tail);
    }
  }

  // ---- Decimal numbers ----

  function DigitChar(d: nat): char
    requires d < 10
  {
    d as char + '0'
  }

  predicate IsDigit(c: char) {
    '0' <= c <= '9'
  }

  function DigitValue(c: char): nat
    requires IsDigit(c)
  {
    (c - '0') as nat
  }

  /** `strconv.FormatUint(n, 10)`. */
  function Decimal(n: nat): (r: string)
    ensures |r| > 0
    ensures forall i :: 0 <= i < |r| ==> IsDigit(r[i])
  {
    if n < 10 then [DigitChar(n)] else Decimal(n / 10) + [DigitChar(n % 10)]
  }

  /** The value of a digit string read from the left. */
  function DigitsValue(s: string): nat
    requires forall i :: 0 <= i < |s| ==> IsDigit(s[i])
  {
    if s == "" then 0 else 10 * DigitsValue(s[..|s| - 1]) + DigitValue(s[|s| - 1])
  }

  lemma {:induction false} DecimalValue(n: nat)
    ensures DigitsValue(Decimal(n)) == n
  {
    var r := Decimal(n);
    if n < 10 {
      assert r[..|r| - 1] == "";
    } else {
      DecimalValue(n / 10);
      assert r[..|r| - 1] == Decimal(n / 10);
    }
  }

  function Pow10(k: nat): nat {
    if k == 0 then 1 else 10 * Pow10(k - 1)
  }

  lemma {:induction false} DecimalLength(n: nat, k: nat)
    requires k > 0 && (k == 1 || Pow10(k - 1) <= n) && n < Pow10(k)
    ensures |Decimal(n)| == k
  {
    if k == 1 {
      assert Pow10(1) == 10 * Pow10(0);
    } else {
      assert Pow10(k) == 10 * Pow10(k - 1) && Pow10(k - 1) == 10 * Pow10(k - 2);
      assert n >= 10 by {
        PowPositive(k - 2);
      }
      DecimalLength(n / 10, k - 1);
    }
  }

  lemma {:induction false} PowPositive(k: nat)
    ensures Pow10(k) >= 1
  {
    if k > 0 {
      PowPositive(k - 1);
    }
  }

  // ---- Parsing numbers ----

  const MAX_UINT32: nat := 0xFFFF_FFFF
  const MAX_UINT64: nat := 0xFFFF_FFFF_FFFF_FFFF
  const MAX_INT64: nat := 0x7FFF_FFFF_FFFF_FFFF

  function Min(a: nat, b: nat): nat {
    if a < b then a else b
  }

  /** The loop of `strconv.ParseUint`, with its error dropped: a character that is no digit
      gives 0, and a value above `max` gives `max` without looking any further. */
  function ParseDigits(s: string, n: nat, max: nat): nat {
    if s == "" then n
    else if !IsDigit(s[0]) then 0
    else
      var m := 10 * n + DigitValue(s[0]);
      if m > max then max else ParseDigits(s[1..], m, max)
  }

  function ParseUint(s: string, max: nat): nat {
    if s == "" then 0 else ParseDigits(s, 0, max)
  }

  /** `strconv.Atoi` with its error dropped: an optional sign, then a clamped 64-bit value. */
  function Atoi(s: string): int {
    var negative := s != "" && s[0] == '-';
    var digits := if s != "" && (s[0] == '-' || s[0] == '+') then s[1..] else s;
    var n := ParseUint(digits, MAX_UINT64);
    if negative then 0 - Min(n, MAX_INT64 + 1) else Min(n, MAX_INT64)
  }

  /** The value of `n` followed by the digits of `s`. */
  function Extend(n: nat, s: string): nat
    requires forall i :: 0 <= i < |s| ==> IsDigit(s[i])
    decreases |s|
  {
    if s == "" then n else Extend(10 * n + DigitValue(s[0]), s[1..])
  }

  lemma {:induction false} ExtendGrows(n: nat, s: string)
    requires forall i :: 0 <= i < |s| ==> IsDigit(s[i])
    ensures Extend(n, s) >= n
    decreases |s|
  {
    if s != "" {
      ExtendGrows(10 * n + DigitValue(s[0]), s[1..]);
    }
  }

  lemma {:induction false} ExtendByOne(n: nat, s: string, c: char)
    requires IsDigit(c) && forall i :: 0 <= i < |s| ==> IsDigit(s[i])
    ensures Extend(n, s + [c]) == 10 * Extend(n, s) + DigitValue(c)
    decreases |s|
  {
    if s == "" {
      assert (s + [c])[1..] == "";
    } else {
      assert (s + [c])[1..] == s[1..] + [c];
      ExtendByOne(10 * n + DigitValue(s[0]), s[1..], c);
    }
  }

  lemma {:induction false} ExtendDecimal(n: nat)
    ensures Extend(0, Decimal(n)) == n
  {
    if n < 10 {
      assert Decimal(n)[1..] == "";
    } else {
      ExtendDecimal(n / 10);
      ExtendByOne(0, Decimal(n / 10), DigitChar(n % 10));
    }
  }

  lemma {:induction false} ParseDigitsClamps(s: string, n: nat, max: nat)
    requires n <= max && forall i :: 0 <= i < |s| ==> IsDigit(s[i])
    ensures ParseDigits(s, n, max) == Min(Extend(n, s), max)
  {
    if s != "" {
      var m := 10 * n + DigitValue(s[0]);
      if m > max {
        ExtendGrows(m, s[1..]);
      } else {
        ParseDigitsClamps(s[1..], m, max);
      }
    }
  }

  /** A printed number comes back, clamped to the width it is parsed for. */
  lemma ParseUintOfDecimal(n: nat, max: nat)
    ensures ParseUint(Decimal(n), max) == Min(n, max)
  {
    ParseDigitsClamps(Decimal(n), 0, max);
    ExtendDecimal(n);
  }

  lemma AtoiOfDecimal(n: nat)
    ensures Atoi(Decimal(n)) == Min(n, MAX_INT64)
  {
    assert IsDigit(Decimal(n)[0]);
    ParseUintOfDecimal(n, MAX_UINT64);
  }

  /** A signed number comes back, clamped to 64 bits. */
  lemma AtoiOfSigned(n: nat)
    ensures Atoi("-" + Decimal(n)) == 0 - Min(n, MAX_INT64 + 1)
    ensures Atoi("+" + Decimal(n)) == Min(n, MAX_INT64)
  {
    assert ("-" + Decimal(n))[1..] == Decimal(n) && ("+" + Decimal(n))[1..] == Decimal(n);
    ParseUintOfDecimal(n, MAX_UINT64);
  }

  /** Digits followed by anything else give 0, unless they are too large already. */
  lemma {:induction false} GarbageIsZero(s: string, c: char, rest: string, n: nat, max: nat)
    requires n <= max && !IsDigit(c) && forall i :: 0 <= i < |s| ==> IsDigit(s[i])
    ensures ParseDigits(s + [c] + rest, n, max) == if Extend(n, s) > max then max else 0
    decreases |s|
  {
    var t := s + [c] + rest;
    if s == "" {
      assert t[0] == c;
    } else {
      var m := 10 * n + DigitValue(s[0]);
      assert t[0] == s[0] && t[1..] == s[1..] + [c] + rest;
      if m > max {
        ExtendGrows(m, s[1..]);
      } else {
        GarbageIsZero(s[1..], c, rest, m, max);
      }
    }
  }
}
