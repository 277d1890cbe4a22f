/** Strings as the controller uses them: the byte order of `sort.Strings`, splitting and joining
    at "/", the decimal parser behind `strconv.Atoi`, and the conversion to int32. */
module Text {
  datatype Option<+T> = None | Some(value: T)

  /*** Lexicographic order ***/

  predicate Less(a: string, b: string) {
    if b == "" then false
    else if a == "" then true
    else a[0] < b[0] || (a[0] == b[0] && Less(a[1..], b[1..]))
  }

  lemma LessIrreflexive(a: string)
    ensures !Less(a, a)
  {
  }

  lemma LessTransitive(a: string, b: string, c: string)
    requires Less(a, b) && Less(b, c)
    ensures Less(a, c)
  {
  }

  lemma LessTotal(a: string, b: string)
    ensures a == b || Less(a, b) || Less(b, a)
  {
    if a != "" && b != "" && a[0] == b[0] {
      LessTotal(a[1..], b[1..]);
      assert a == [a[0]] + a[1..] && b == [b[0]] + b[1..];
    }
  }

  /** A common prefix does not influence the order. */
  lemma LessAfterPrefix(p: string, a: string, b: string)
    ensures Less(p + a, p + b) == Less(a, b)
  {
    if p == "" {
      assert p + a == a && p + b == b;
    } else {
      assert (p + a)[1..] == p[1..] + a && (p + b)[1..] == p[1..] + b;
      LessAfterPrefix(p[1..], a, b);
    }
  }

  /** The order: at the first difference the lesser character, or the end of the text, comes first. */
  predicate Precedes(a: string, b: string, at: nat) {
    at <= |a| && at < |b| && a[..at] == b[..at] && (at == |a| || a[at] < b[at])
  }

  lemma SharesFirst(a: string, b: string, at: nat)
    requires Precedes(a, b, at)
    ensures at > 0 ==> a[0] == b[0]
  {
    if at > 0 { assert a[..at][0] == a[0] && b[..at][0] == b[0]; }
  }

  lemma {:induction false} LessExactlyWhen(a: string, b: string)
    ensures Less(a, b) <==> exists at: nat :: Precedes(a, b, at)
  {
    if b != "" && a != "" && a[0] == b[0] {
      LessExactlyWhen(a[1..], b[1..]);
      if at: nat :| Precedes(a[1..], b[1..], at) {
        assert a[..at + 1] == [a[0]] + a[1..][..at] && b[..at + 1] == [b[0]] + b[1..][..at];
        assert Precedes(a, b, at + 1);
      }
      if at: nat :| Precedes(a, b, at) {
        assert at > 0;
        assert a[1..][..at - 1] == a[..at][1..] && b[1..][..at - 1] == b[..at][1..];
        assert Precedes(a[1..], b[1..], at - 1);
      }
    } else if b != "" && (a == "" || a[0] < b[0]) {
      assert Precedes(a, b, 0);
    } else if at: nat :| Precedes(a, b, at) {
      SharesFirst(a, b, at);
    }
  }

  ghost predicate StrictlySorted(s: seq<string>) {
    forall i, j | 0 <= i < j < |s| :: Less(s[i], s[j])
  }

  ghost function Elements<T>(s: seq<T>): set<T> {
    set x | x in s
  }

  /** The position-respecting insertion that keeps a sorted listing sorted and free of duplicates. */
  function Insert(x: string, s: seq<string>): (r: seq<string>)
    requires StrictlySorted(s)
    ensures StrictlySorted(r)
    ensures Elements(r) == Elements(s) + {x}
  {
    if s == [] then [x]
    else if s[0] == x then s
    else if Less(x, s[0]) then
      assert forall j | 0 <= j < |s| :: Less(x, s[j]) by {
        forall j | 0 < j < |s| ensures Less(x, s[j]) { LessTransitive(x, s[0], s[j]); }
      }
      [x] + s
    else
      LessTotal(x, s[0]);
      assert StrictlySorted(s[1..]);
      var tail := Insert(x, s[1..]);
      ConsInserted(x, s, tail);
      [s[0]] + tail
  }

  lemma ConsInserted(x: string, s: seq<string>, tail: seq<string>)
    requires s != [] && StrictlySorted(s) && Less(s[0], x)
    requires StrictlySorted(tail) && Elements(tail) == Elements(s[1..]) + {x}
    ensures StrictlySorted([s[0]] + tail)
    ensures Elements([s[0]] + tail) == Elements(s) + {x}
  {
    assert s == [s[0]] + s[1..];
    forall k | 0 <= k < |tail|
      ensures Less(s[0], tail[k])
    {
      assert tail[k] in Elements(tail);
      if tail[k] != x { assert tail[k] in s[1..]; }
    }
    assert Elements([s[0]] + tail) == {s[0]} + Elements(tail);
  }

  /** The sorted listing of a finite set of strings. */
  ghost function Sorted(m: set<string>): (r: seq<string>)
    ensures StrictlySorted(r)
    ensures Elements(r) == m
  {
    if m == {} then [] else
      var x :| x in m;
      Insert(x, Sorted(m - {x}))
  }

  /** A strictly sorted listing is determined by its elements, so whatever order a Go map is
      iterated in, the listing comes out the same. */
  lemma {:induction false} SortedListingUnique(s: seq<string>, t: seq<string>)
    requires StrictlySorted(s) && StrictlySorted(t)
    requires Elements(s) == Elements(t)
    ensures s == t
  {
    assert s != [] ==> s[0] in Elements(s);
    assert t != [] ==> t[0] in Elements(t);
    if s != [] && t != [] {
      FirstIsLeast(s, t);
      FirstIsLeast(t, s);
      LessTotal(s[0], t[0]);
      if Less(s[0], t[0]) { LessNotBoth(s[0], t[0]); }
      assert s[0] == t[0];
      TailElements(s);
      TailElements(t);
      SortedListingUnique(s[1..], t[1..]);
      assert s == [s[0]] + s[1..] && t == [t[0]] + t[1..];
    }
  }

  lemma LessNotBoth(a: string, b: string)
    requires Less(a, b)
    ensures !Less(b, a)
  {
    if Less(b, a) { LessTransitive(a, b, a); LessIrreflexive(a); }
  }

  lemma FirstIsLeast(s: seq<string>, t: seq<string>)
    requires StrictlySorted(s) && s != [] && t != [] && Elements(s) == Elements(t)
    ensures t[0] == s[0] || Less(s[0], t[0])
  {
    assert t[0] in Elements(t);
  }

  lemma TailElements(s: seq<string>)
    requires StrictlySorted(s) && s != []
    ensures StrictlySorted(s[1..])
    ensures Elements(s[1..]) == Elements(s) - {s[0]}
  {
    assert s == [s[0]] + s[1..];
    LessIrreflexive(s[0]);
    assert s[0] !in s[1..];
  }

  /** The key listing both converters iterate: collect in map order, then sort. */
  method SortedKeys(m: set<string>) returns (out: seq<string>)
    ensures out == Sorted(m)
  {
    out := [];
    var rest := m;
    while rest != {}
      invariant rest <= m
      invariant StrictlySorted(out) && Elements(out) == m - rest
    {
      var k :| k in rest;
      out := Insert(k, out);
      rest := rest - {k};
    }
    SortedListingUnique(out, Sorted(m));
  }

  /*** Splitting at "/" ***/

  function Split(p: string): (r: seq<string>)
    ensures |r| >= 1
    ensures forall i | 0 <= i < |r| :: '/' !in r[i]
  {
    if p == "" then [""]
    else
      var rest := Split(p[1..]);
      if p[0] == '/' then [""] + rest else [[p[0]] + rest[0]] + rest[1..]
  }

  function Join(segs: seq<string>): string {
    if |segs| == 0 then ""
    else if |segs| == 1 then segs[0]
    else segs[0] + "/" + Join(segs[1..])
  }

  lemma {:induction false} SplitOfSegment(s: string)
    requires '/' !in s
    ensures Split(s) == [s]
  {
    if s != "" {
      SplitOfSegment(s[1..]);
      assert s[0] in s && s == [s[0]] + s[1..];
    }
  }

  lemma {:induction false} SplitAfterSlash(a: string, b: string)
    requires '/' !in a
    ensures Split(a + "/" + b) == [a] + Split(b)
  {
    if a == "" {
      assert (a + "/" + b)[1..] == b;
    } else {
      assert (a + "/" + b)[1..] == a[1..] + "/" + b && (a + "/" + b)[0] == a[0];
      SplitAfterSlash(a[1..], b);
      assert a[0] in a && a == [a[0]] + a[1..];
    }
  }

  /** Splitting undoes joining. */
  lemma {:induction false} SplitJoin(segs: seq<string>)
    requires |segs| >= 1
    requires forall i | 0 <= i < |segs| :: '/' !in segs[i]
    ensures Split(Join(segs)) == segs
  {
    if |segs| == 1 {
      SplitOfSegment(segs[0]);
    } else {
      SplitJoin(segs[1..]);
      SplitAfterSlash(segs[0], Join(segs[1..]));
    }
  }

  lemma SplitHead(a: string)
    ensures a == "" ==> Split(a) == [""]
    ensures a != "" && a[0] == '/' ==> Split(a)[0] == "" && Split(a)[1..] == Split(a[1..])
    ensures a != "" && a[0] != '/' ==>
              && Split(a)[0] == [a[0]] + Split(a[1..])[0]
              && Split(a)[1..] == Split(a[1..])[1..]
  {
  }

  lemma PrefixByHead<T>(x: seq<T>, y: seq<T>)
    requires x != [] && y != []
    ensures x <= y <==> x[0] == y[0] && x[1..] <= y[1..]
  {
    if x[0] == y[0] && x[1..] <= y[1..] {
      assert x == [x[0]] + x[1..] && y == [y[0]] + y[1..];
    }
  }

  /** A list of path elements is a prefix of another exactly when the text is equal or continues
      with a slash: the element-wise and the character-wise reading of a prefix match agree. */
  lemma {:induction false} ElementPrefixIsTextPrefix(a: string, b: string)
    ensures Split(a) <= Split(b) <==> b == a || a + "/" <= b
  {
    var x, y := Split(a), Split(b);
    SplitHead(a);
    SplitHead(b);
    PrefixByHead(x, y);
    if a != "" && b != "" {
      PrefixByHead(a + "/", b);
      assert (a + "/")[1..] == a[1..] + "/";
      assert a == [a[0]] + a[1..] && b == [b[0]] + b[1..];
      if a[0] == b[0] {
        ElementPrefixIsTextPrefix(a[1..], b[1..]);
        PrefixByHead(Split(a[1..]), Split(b[1..]));
        if a[0] != '/' { ConsEqual(a[0], Split(a[1..])[0], Split(b[1..])[0]); }
      } else if a[0] != '/' && b[0] != '/' {
        assert x[0][0] == a[0] && y[0][0] == b[0];
      }
    }
  }

  lemma ConsEqual(c: char, a: string, b: string)
    ensures [c] + a == [c] + b <==> a == b
  {
    assert ([c] + a)[1..] == a && ([c] + b)[1..] == b;
  }

  /*** 32-bit integers ***/

  const MAX32 := 0x7fff_ffff
  const MIN32 := -0x8000_0000

  predicate Fits32(x: int) { MIN32 <= x <= MAX32 }

  /** Go's conversion to, and overflow of, int32. */
  function Wrap32(x: int): (r: int)
    ensures Fits32(r)
    ensures Fits32(x) ==> r == x
  {
    (x + 0x8000_0000) % 0x1_0000_0000 - 0x8000_0000
  }

  /*** Decimal integers ***/

  predicate IsDigit(c: char) { '0' <= c <= '9' }

  function Digits(s: string): Option<nat>
  {
    if s == "" then None
    else if !IsDigit(s[|s| - 1]) then None
    else
      var last := s[|s| - 1] as int - '0' as int;
      if |s| == 1 then Some(last)
      else match Digits(s[..|s| - 1])
        case None => None
        case Some(n) => Some(10 * n + last)
  }

  /** `strconv.Atoi` on a 64-bit platform: an optional sign, then digits, within int64. */
  function Atoi(s: string): Option<int> {
    var negative := s != "" && s[0] == '-';
    var body := if s != "" && (s[0] == '-' || s[0] == '+') then s[1..] else s;
    match Digits(body)
    case None => None
    case Some(n) =>
      var magnitude: int := n;
      var v := if negative then -magnitude else magnitude;
      if -0x8000_0000_0000_0000 <= v < 0x8000_0000_0000_0000 then Some(v) else None
  }

  /*** What the parser accepts ***/

  const DIGITS := "0123456789"

  /** The decimal text of a number. */
  function Decimal(n: nat): string {
    if n < 10 then [DIGITS[n]] else Decimal(n / 10) + [DIGITS[n % 10]]
  }

  function Zeros(n: nat): string { seq(n, _ => '0') }

  function Padded(zeros: nat, n: nat): string { Zeros(zeros) + Decimal(n) }

  /** The text is the number in decimal, with leading zeros if it likes. */
  ghost predicate Numeral(s: string, n: nat) { exists zeros: nat :: s == Padded(zeros, n) }

  /** The same with a sign if it likes, and a minus for a negative number. */
  ghost predicate ReadsAs(s: string, v: int) {
    || (v >= 0 && (Numeral(s, v) || (s != "" && s[0] == '+' && Numeral(s[1..], v))))
    || (v <= 0 && s != "" && s[0] == '-' && Numeral(s[1..], -v))
  }

  lemma DigitValue(n: nat)
    requires n < 10
    ensures IsDigit(DIGITS[n]) && DIGITS[n] as int - '0' as int == n
  {
  }

  lemma ValueDigit(c: char)
    requires IsDigit(c)
    ensures 0 <= c as int - '0' as int < 10 && DIGITS[c as int - '0' as int] == c
  {
  }

  lemma {:induction false} DigitsOfDecimal(n: nat)
    ensures Decimal(n) != "" && Digits(Decimal(n)) == Some(n)
  {
    DigitValue(n % 10);
    if n >= 10 {
      DigitsOfDecimal(n / 10);
      assert Decimal(n)[..|Decimal(n)| - 1] == Decimal(n / 10);
    }
  }

  lemma {:induction false} DigitsOfZeros(n: nat)
    requires n > 0
    ensures Digits(Zeros(n)) == Some(0)
  {
    if n > 1 {
      DigitsOfZeros(n - 1);
      assert Zeros(n)[..n - 1] == Zeros(n - 1);
    }
  }

  lemma {:induction false} LeadingZeros(n: nat, s: string)
    requires s != ""
    ensures Digits(Zeros(n) + s) == Digits(s)
  {
    var t := Zeros(n) + s;
    assert t[|t| - 1] == s[|s| - 1];
    if |s| == 1 {
      assert t[..|t| - 1] == Zeros(n);
      if n > 0 { DigitsOfZeros(n); } else { assert t == s; }
    } else {
      assert t[..|t| - 1] == Zeros(n) + s[..|s| - 1];
      LeadingZeros(n, s[..|s| - 1]);
    }
  }

  lemma {:induction false} DigitsSpell(s: string) returns (zeros: nat)
    requires Digits(s).Some?
    ensures s == Padded(zeros, Digits(s).value)
  {
    var init, c := s[..|s| - 1], s[|s| - 1];
    ValueDigit(c);
    assert s == init + [c];
    if |s| == 1 {
      zeros := 0;
    } else {
      zeros := DigitsSpell(init);
      var m := Digits(init).value;
      if m == 0 { zeros := zeros + 1; }
      OneMoreDigit(if m == 0 then zeros - 1 else zeros, m, c);
    }
  }

  lemma OneMoreDigit(zeros: nat, m: nat, c: char)
    requires IsDigit(c)
    ensures Padded(zeros, m) + [c] == Padded(if m == 0 then zeros + 1 else zeros, 10 * m + (c as int - '0' as int))
  {
    ValueDigit(c);
    var d := c as int - '0' as int;
    if m == 0 {
      assert Zeros(zeros + 1) == Zeros(zeros) + "0" && Decimal(0) == "0";
    } else {
      assert (10 * m + d) / 10 == m && (10 * m + d) % 10 == d;
    }
  }

  /** Digits stand for a number exactly when they spell it. */
  lemma NumeralExactlyWhen(s: string, n: nat)
    ensures Digits(s) == Some(n) <==> Numeral(s, n)
  {
    if zeros: nat :| s == Padded(zeros, n) {
      DigitsOfDecimal(n);
      LeadingZeros(zeros, Decimal(n));
    }
    if Digits(s) == Some(n) { var zeros := DigitsSpell(s); }
  }

  lemma {:induction false} DigitsAtTheEnds(s: string)
    requires Digits(s).Some?
    ensures s != "" && IsDigit(s[0]) && IsDigit(s[|s| - 1])
  {
    if |s| > 1 { DigitsAtTheEnds(s[..|s| - 1]); }
  }

  lemma NumeralEnds(s: string, n: nat)
    requires Numeral(s, n)
    ensures s != "" && IsDigit(s[0]) && IsDigit(s[|s| - 1])
  {
    NumeralExactlyWhen(s, n);
    DigitsAtTheEnds(s);
  }

  predicate InInt64(v: int) { -0x8000_0000_0000_0000 <= v < 0x8000_0000_0000_0000 }

  lemma SignedExactlyWhen(s: string, v: int)
    requires s != "" && (s[0] == '-' || s[0] == '+')
    ensures Atoi(s) == Some(v) <==> ReadsAs(s, v) && InInt64(v)
  {
    var n := if v < 0 then -v else v;
    NumeralExactlyWhen(s[1..], n);
    if Numeral(s, n) { NumeralEnds(s, n); }
    if Digits(s[1..]).Some? { NumeralExactlyWhen(s[1..], Digits(s[1..]).value); }
  }

  lemma UnsignedExactlyWhen(s: string, v: int)
    requires s == "" || (s[0] != '-' && s[0] != '+')
    ensures Atoi(s) == Some(v) <==> ReadsAs(s, v) && InInt64(v)
  {
    if v >= 0 { NumeralExactlyWhen(s, v); }
  }

  /** The parser yields a number exactly for the texts that spell it, within int64. */
  lemma AtoiExactlyWhen(s: string, v: int)
    ensures Atoi(s) == Some(v) <==> ReadsAs(s, v) && -0x8000_0000_0000_0000 <= v < 0x8000_0000_0000_0000
  {
    if s != "" && (s[0] == '-' || s[0] == '+') { SignedExactlyWhen(s, v); } else { UnsignedExactlyWhen(s, v); }
  }

  /** Rendering a number and reading it back. */
  lemma DecimalReads(n: nat)
    ensures ReadsAs(Decimal(n), n)
  {
    assert Zeros(0) + Decimal(n) == Decimal(n);
    assert Decimal(n) == Padded(0, n);
  }

  predicate IsSpace(c: char) {
    c == ' ' || c == '\t' || c == '\n' || c == '\r' || c == '\U{0B}' || c == '\U{0C}'
  }

  /** Tab, line feed, vertical tab, form feed, carriage return, space. */
  lemma SpacesExactly(c: char)
    ensures IsSpace(c) <==> 9 <= c as int <= 13 || c as int == 32
  {
  }

  predicate AllSpace(s: string) { forall c | c in s :: IsSpace(c) }

  predicate NoEdgeSpace(s: string) { s != "" ==> !IsSpace(s[0]) && !IsSpace(s[|s| - 1]) }

  function TrimSpace(s: string): string {
    if s != "" && IsSpace(s[0]) then TrimSpace(s[1..])
    else if s != "" && IsSpace(s[|s| - 1]) then TrimSpace(s[..|s| - 1])
    else s
  }

  lemma {:induction false} TrimSpaceParts(s: string) returns (front: string, back: string)
    ensures s == front + TrimSpace(s) + back && AllSpace(front) && AllSpace(back) && NoEdgeSpace(TrimSpace(s))
  {
    if s != "" && IsSpace(s[0]) {
      front, back := TrimSpaceParts(s[1..]);
      front := [s[0]] + front;
    } else if s != "" && IsSpace(s[|s| - 1]) {
      front, back := TrimSpaceParts(s[..|s| - 1]);
      back := back + [s[|s| - 1]];
    } else {
      front, back := "", "";
    }
  }

  /** Trimming yields what is left between the white space on both sides. */
  lemma {:induction false} TrimSpaceBetween(front: string, t: string, back: string)
    requires AllSpace(front) && AllSpace(back) && NoEdgeSpace(t) && t != ""
    ensures TrimSpace(front + t + back) == t
  {
    var s := front + t + back;
    if front != "" {
      assert s[0] == front[0] && front[0] in front && s[1..] == front[1..] + t + back;
      TrimSpaceBetween(front[1..], t, back);
    } else if back != "" {
      assert s[0] == t[0] && s[|s| - 1] == back[|back| - 1] && back[|back| - 1] in back;
      assert s[..|s| - 1] == front + t + back[..|back| - 1];
      TrimSpaceBetween(front, t, back[..|back| - 1]);
    } else {
      assert s == t;
    }
  }

  lemma NumbersHaveNoSpace(t: string, v: int)
    requires ReadsAs(t, v)
    ensures t != "" && NoEdgeSpace(t)
  {
    var body := if t != "" && (t[0] == '-' || t[0] == '+') then t[1..] else t;
    var n := if v < 0 then -v else v;
    if Numeral(t, n) { NumeralEnds(t, n); } else { NumeralEnds(t[1..], n); }
  }

  predicate Between(s: string, front: string, t: string, back: string) {
    s == front + t + back && AllSpace(front) && AllSpace(back)
  }

  /** The text is a number between white space. */
  ghost predicate TrimmedReadsAs(s: string, v: int) {
    exists front, t, back :: Between(s, front, t, back) && ReadsAs(t, v)
  }

  lemma TrimmedAtoiExactlyWhen(s: string, v: int)
    ensures Atoi(TrimSpace(s)) == Some(v)
            <==> TrimmedReadsAs(s, v) && -0x8000_0000_0000_0000 <= v < 0x8000_0000_0000_0000
  {
    if front, t, back :| Between(s, front, t, back) && ReadsAs(t, v) {
      NumbersHaveNoSpace(t, v);
      TrimSpaceBetween(front, t, back);
      AtoiExactlyWhen(t, v);
    }
    if Atoi(TrimSpace(s)) == Some(v) {
      var front, back := TrimSpaceParts(s);
      AtoiExactlyWhen(TrimSpace(s), v);
      assert Between(s, front, TrimSpace(s), back);
    }
  }

  function Upper(c: char): char {
    if 'a' <= c <= 'z' then (c as int - 32) as char else c
  }

  /** `strings.EqualFold` for the ASCII letters this controller compares. */
  predicate EqualFold(a: string, b: string) {
    |a| == |b| && forall i | 0 <= i < |a| :: Upper(a[i]) == Upper(b[i])
  }

  /** The spellings of one word: upper or lower case, letter by letter. */
  lemma GRPCSpellings(v: string)
    ensures EqualFold(v, "GRPC")
            <==> |v| == 4 && v[0] in "Gg" && v[1] in "Rr" && v[2] in "Pp" && v[3] in "Cc"
  {
    assert Upper('G') == 'G' && Upper('R') == 'R' && Upper('P') == 'P' && Upper('C') == 'C';
    var w := "GRPC";
    assert w[0] == 'G' && w[1] == 'R' && w[2] == 'P' && w[3] == 'C' && |w| == 4;
    if |v| == 4 {
      UpperIs(v[0], 'G', 'g');
      UpperIs(v[1], 'R', 'r');
      UpperIs(v[2], 'P', 'p');
      UpperIs(v[3], 'C', 'c');
    }
  }

  lemma UpperIs(c: char, upper: char, lower: char)
    requires 'A' <= upper <= 'Z' && lower as int == upper as int + 32
    ensures Upper(c) == upper <==> c == upper || c == lower
  {
  }

  /** `a + sep + b` can be taken apart again when `a` does not contain the separator. */
  lemma {:induction false} SeparatorInjective(sep: char, a: string, b: string, c: string, d: string)
    requires sep !in a && sep !in c
    requires a + [sep] + b == c + [sep] + d
    ensures a == c && b == d
  {
    var x := a + [sep] + b;
    assert x[|a|] == sep && x[|c|] == sep;
    assert forall i | 0 <= i < |a| :: x[i] == a[i] != sep;
    assert forall i | 0 <= i < |c| :: x[i] == c[i] != sep;
    assert |a| == |c|;
    assert a == x[..|a|] == c;
    assert b == x[|a| + 1..] == d;
  }
}
