/** The two list helpers: the natural (digit-aware) serial comparator used to order
    customers, and the partition of a list into fixed-size chunks. */
module Helpers {
  import opened Types

  // ---------------------------------------------------------------------------
  // naturalSort

  /** `serial || ''`: a missing serial reads as the empty string. */
  function SerialOrEmpty(serial: Option<string>): string
  {
    match serial
    case None => ""
    case Some(s) => s
  }

  /** The class `\d` of the split pattern: the ASCII digits. */
  predicate IsDigit(c: char)
  {
    '0' <= c <= '9'
  }

  predicate AllDigits(s: string)
  {
    forall k :: 0 <= k < |s| ==> IsDigit(s[k])
  }

  predicate NoDigits(s: string)
  {
    forall k :: 0 <= k < |s| ==> !IsDigit(s[k])
  }

  /** The length of the longest prefix of `s` without a digit. */
  function NonDigitRun(s: string): (n: nat)
    ensures n <= |s| && NoDigits(s[..n])
    ensures n < |s| ==> IsDigit(s[n])
  {
    if |s| == 0 || IsDigit(s[0]) then 0
    else
      var m := NonDigitRun(s[1..]);
      assert s[..m + 1] == [s[0]] + s[1..][..m];
      m + 1
  }

  /** The length of the longest prefix of `s` made of digits. */
  function DigitRun(s: string): (n: nat)
    ensures n <= |s| && AllDigits(s[..n])
    ensures n < |s| ==> !IsDigit(s[n])
  {
    if |s| == 0 || !IsDigit(s[0]) then 0
    else
      var m := DigitRun(s[1..]);
      assert s[..m + 1] == [s[0]] + s[1..][..m];
      m + 1
  }

  /** `s.split(/(\d+)/g)`: because the pattern captures, the digit runs are kept, so the
      result alternates text runs (even indices) and digit runs (odd indices). */
  function SplitDigitRuns(s: string): seq<string>
    decreases |s|
  {
    var n := NonDigitRun(s);
    if n == |s| then [s]
    else
      var rest := s[n..];
      var d := DigitRun(rest);
      [s[..n], rest[..d]] + SplitDigitRuns(rest[d..])
  }

  function Concat(parts: seq<string>): string
  {
    if |parts| == 0 then "" else parts[0] + Concat(parts[1..])
  }

  /** One step of the split: the leading text run, the digit run after it, and the rest. */
  lemma SplitDigitRunsStep(s: string)
    requires NonDigitRun(s) < |s|
    ensures DigitRun(s[NonDigitRun(s)..]) > 0
    ensures SplitDigitRuns(s) ==
      [s[..NonDigitRun(s)], s[NonDigitRun(s)..][..DigitRun(s[NonDigitRun(s)..])]]
      + SplitDigitRuns(s[NonDigitRun(s)..][DigitRun(s[NonDigitRun(s)..])..])
  {
  }

  /** The shape of a split: odd length, no digit in the even parts, and non-empty digit runs
      in the odd parts. */
  predicate WellSplit(parts: seq<string>)
  {
    && |parts| % 2 == 1
    && (forall i :: 0 <= i < |parts| && i % 2 == 0 ==> NoDigits(parts[i]))
    && (forall i :: 0 <= i < |parts| && i % 2 == 1 ==> parts[i] != "" && AllDigits(parts[i]))
  }

  lemma WellSplitCons(text: string, digits: string, tail: seq<string>)
    requires NoDigits(text) && digits != "" && AllDigits(digits) && WellSplit(tail)
    ensures WellSplit([text, digits] + tail)
  {
    var parts := [text, digits] + tail;
    assert forall i :: 2 <= i < |parts| ==> parts[i] == tail[i - 2];
  }

  /** The split of every serial has that shape. */
  lemma {:induction false} SplitDigitRunsShape(s: string)
    ensures WellSplit(SplitDigitRuns(s))
    decreases |s|
  {
    var n := NonDigitRun(s);
    if n == |s| {
      assert s[..n] == s;
    } else {
      SplitDigitRunsStep(s);
      var rest := s[n..];
      var d := DigitRun(rest);
      SplitDigitRunsShape(rest[d..]);
      WellSplitCons(s[..n], rest[..d], SplitDigitRuns(rest[d..]));
    }
  }

  lemma ConcatPair(a: string, b: string, tail: seq<string>)
    ensures Concat([a, b] + tail) == a + (b + Concat(tail))
  {
    var parts := [a, b] + tail;
    assert parts[1..] == [b] + tail;
    assert parts[1..][1..] == tail;
  }

  /** Joining the parts of the split gives back the serial. */
  lemma {:induction false} SplitDigitRunsJoin(s: string)
    ensures Concat(SplitDigitRuns(s)) == s
    decreases |s|
  {
    var n := NonDigitRun(s);
    if n == |s| {
      assert s[..n] == s;
      assert Concat([s]) == s + Concat([]);
    } else {
      SplitDigitRunsStep(s);
      var rest := s[n..];
      var d := DigitRun(rest);
      SplitDigitRunsJoin(rest[d..]);
      ConcatPair(s[..n], rest[..d], SplitDigitRuns(rest[d..]));
      assert rest[..d] + rest[d..] == rest;
      assert s[..n] + rest == s;
    }
  }

  /** `parseInt(d, 10)` of a digit run, without the floating-point precision limit. */
  function DigitsValue(d: string): nat
  {
    if |d| == 0 then 0
    else 10 * DigitsValue(d[..|d| - 1]) + (if IsDigit(d[|d| - 1]) then (d[|d| - 1] - '0') as nat else 0)
  }

  /** JavaScript's `<` on strings: lexicographic order by character code. */
  predicate LexLess(a: string, b: string)
  {
    if |a| == 0 then |b| > 0
    else if |b| == 0 then false
    else if a[0] != b[0] then a[0] < b[0]
    else LexLess(a[1..], b[1..])
  }

  /** `<` on strings is a strict total order: of two different strings exactly one is smaller. */
  lemma {:induction false} LexLessTrichotomy(a: string, b: string)
    ensures !LexLess(a, a)
    ensures a != b ==> LexLess(a, b) != LexLess(b, a)
  {
    if |a| > 0 {
      LexLessTrichotomy(a[1..], a[1..]);
      if |b| > 0 && a[0] == b[0] {
        LexLessTrichotomy(a[1..], b[1..]);
        if a != b {
          assert a == [a[0]] + a[1..] && b == [b[0]] + b[1..];
        }
      }
    }
  }

  /** The value a part has in the comparison loop: the string, or at odd indices its number. */
  datatype Part = Text(text: string) | Number(number: nat)

  function PartValue(raw: string, i: nat): Part
  {
    if i % 2 == 1 then Number(DigitsValue(raw)) else Text(raw)
  }

  /** `partA < partB` for two parts of the same kind. */
  predicate PartLess(x: Part, y: Part)
  {
    match (x, y)
    case (Number(m), Number(n)) => m < n
    case (Text(s), Text(t)) => LexLess(s, t)
    case _ => false
  }

  /** The comparison of two split serials from part `i` on: the first unequal part decides
      the sign; when the shorter list runs out, the difference of the lengths is returned. */
  function CompareParts(aParts: seq<string>, bParts: seq<string>, i: nat): int
    decreases |aParts| - i
  {
    if i >= |aParts| || i >= |bParts| then |aParts| - |bParts|
    else if PartValue(aParts[i], i) != PartValue(bParts[i], i) then
      (if PartLess(PartValue(aParts[i], i), PartValue(bParts[i], i)) then -1 else 1)
    else CompareParts(aParts, bParts, i + 1)
  }

  /** What `naturalSort` returns, stated as a definition. `localeCompare` stands for the host's
      locale-aware string comparison, used only when both serials are empty. */
  function NaturalOrder(aSerial: Option<string>, bSerial: Option<string>, aName: string, bName: string,
                        localeCompare: (string, string) -> int): int
  {
    var sA := SerialOrEmpty(aSerial);
    var sB := SerialOrEmpty(bSerial);
    if sA != "" && sB == "" then -1
    else if sA == "" && sB != "" then 1
    else if sA == "" && sB == "" then localeCompare(aName, bName)
    else CompareParts(SplitDigitRuns(sA), SplitDigitRuns(sB), 0)
  }

  /** `naturalSort(aSerial, bSerial, aName, bName)`. */
  method NaturalSort(aSerial: Option<string>, bSerial: Option<string>, aName: string, bName: string,
                     localeCompare: (string, string) -> int) returns (r: int)
    ensures r == NaturalOrder(aSerial, bSerial, aName, bName, localeCompare)
  {
    var sA := SerialOrEmpty(aSerial);
    var sB := SerialOrEmpty(bSerial);
    if sA != "" && sB == "" { return -1; }
    if sA == "" && sB != "" { return 1; }
    if sA == "" && sB == "" { return localeCompare(aName, bName); }
    var aParts := SplitDigitRuns(sA);
    var bParts := SplitDigitRuns(sB);
    var n := if |aParts| < |bParts| then |aParts| else |bParts|;
    for i := 0 to n
      invariant CompareParts(aParts, bParts, i) == CompareParts(aParts, bParts, 0)
    {
      var partA := Text(aParts[i]);
      var partB := Text(bParts[i]);
      if i % 2 == 1 {
        partA := Number(DigitsValue(aParts[i]));
        partB := Number(DigitsValue(bParts[i]));
      }
      if partA != partB {
        return if PartLess(partA, partB) then -1 else 1;
      }
    }
    return |aParts| - |bParts|;
  }

  /** Of two unequal parts at one index, exactly one is smaller. */
  lemma PartLessAntisymmetric(x: string, y: string, i: nat)
    requires PartValue(x, i) != PartValue(y, i)
    ensures PartLess(PartValue(x, i), PartValue(y, i)) != PartLess(PartValue(y, i), PartValue(x, i))
  {
    if i % 2 == 0 { LexLessTrichotomy(x, y); }
  }

  lemma {:induction false} ComparePartsAntisymmetric(aParts: seq<string>, bParts: seq<string>, i: nat)
    ensures CompareParts(bParts, aParts, i) == -CompareParts(aParts, bParts, i)
    decreases |aParts| - i
  {
    if i < |aParts| && i < |bParts| {
      if PartValue(aParts[i], i) != PartValue(bParts[i], i) {
        PartLessAntisymmetric(aParts[i], bParts[i], i);
      } else {
        ComparePartsAntisymmetric(aParts, bParts, i + 1);
      }
    }
  }

  lemma {:induction false} ComparePartsSame(parts: seq<string>, i: nat)
    ensures CompareParts(parts, parts, i) == 0
    decreases |parts| - i
  {
    if i < |parts| { ComparePartsSame(parts, i + 1); }
  }

  /** Swapping the arguments negates the result whenever a serial is present (when both are
      empty the result is the locale comparison of the names). */
  lemma NaturalOrderAntisymmetric(aSerial: Option<string>, bSerial: Option<string>, aName: string, bName: string,
                                  localeCompare: (string, string) -> int)
    requires SerialOrEmpty(aSerial) != "" || SerialOrEmpty(bSerial) != ""
    ensures NaturalOrder(bSerial, aSerial, bName, aName, localeCompare)
         == -NaturalOrder(aSerial, bSerial, aName, bName, localeCompare)
  {
    ComparePartsAntisymmetric(SplitDigitRuns(SerialOrEmpty(aSerial)), SplitDigitRuns(SerialOrEmpty(bSerial)), 0);
  }

  /** Identical non-empty serials compare equal. */
  lemma NaturalOrderReflexive(serial: Option<string>, aName: string, bName: string,
                              localeCompare: (string, string) -> int)
    requires SerialOrEmpty(serial) != ""
    ensures NaturalOrder(serial, serial, aName, bName, localeCompare) == 0
  {
    ComparePartsSame(SplitDigitRuns(SerialOrEmpty(serial)), 0);
  }

  /** A present serial sorts before an empty or missing one; two empty serials fall back to
      the names. */
  lemma NaturalOrderEmptySerials(aSerial: Option<string>, bSerial: Option<string>, aName: string, bName: string,
                                 localeCompare: (string, string) -> int)
    ensures SerialOrEmpty(aSerial) != "" && SerialOrEmpty(bSerial) == "" ==>
      NaturalOrder(aSerial, bSerial, aName, bName, localeCompare) == -1
    ensures SerialOrEmpty(aSerial) == "" && SerialOrEmpty(bSerial) != "" ==>
      NaturalOrder(aSerial, bSerial, aName, bName, localeCompare) == 1
    ensures SerialOrEmpty(aSerial) == "" && SerialOrEmpty(bSerial) == "" ==>
      NaturalOrder(aSerial, bSerial, aName, bName, localeCompare) == localeCompare(aName, bName)
  {
  }

  /** The first index whose parts differ decides the sign. */
  lemma {:induction false} FirstDifferenceDecides(aParts: seq<string>, bParts: seq<string>, i: nat, k: nat)
    requires i <= k < |aParts| && k < |bParts|
    requires forall j :: i <= j < k ==> PartValue(aParts[j], j) == PartValue(bParts[j], j)
    requires PartValue(aParts[k], k) != PartValue(bParts[k], k)
    ensures CompareParts(aParts, bParts, i) ==
      if PartLess(PartValue(aParts[k], k), PartValue(bParts[k], k)) then -1 else 1
    decreases k - i
  {
    if i < k { FirstDifferenceDecides(aParts, bParts, i + 1, k); }
  }

  /** When all common parts are equal, the list with fewer parts sorts first: the result is
      the difference of the lengths. */
  lemma {:induction false} CommonPartsEqual(aParts: seq<string>, bParts: seq<string>, i: nat)
    requires forall j :: i <= j < |aParts| && j < |bParts| ==> PartValue(aParts[j], j) == PartValue(bParts[j], j)
    ensures CompareParts(aParts, bParts, i) == |aParts| - |bParts|
    decreases |aParts| - i
  {
    if i < |aParts| && i < |bParts| { CommonPartsEqual(aParts, bParts, i + 1); }
  }

  /** Digit runs compare by value: "B2" sorts before "B10", although as strings "B10" < "B2". */
  lemma NumbersCompareByValue(aName: string, bName: string, localeCompare: (string, string) -> int)
    ensures NaturalOrder(Some("B2"), Some("B10"), aName, bName, localeCompare) == -1
    ensures LexLess("B10", "B2")
  {
    assert "B2"[1..] == "2" && "2"[1..] == "" && "B10"[1..] == "10" && "10"[1..] == "0" && "0"[1..] == "";
    assert NonDigitRun("2") == 0;
    assert NonDigitRun("B2") == 1;
    assert DigitRun("") == 0;
    assert DigitRun("2") == 1;
    assert "B2"[1..][1..] == "";
    assert SplitDigitRuns("") == [""];
    assert "B2"[..1] == "B" && "B2"[1..][..1] == "2";
    assert SplitDigitRuns("B2") == ["B", "2"] + SplitDigitRuns("");
    assert NonDigitRun("10") == 0;
    assert NonDigitRun("B10") == 1;
    assert DigitRun("0") == 1;
    assert DigitRun("10") == 2;
    assert "B10"[..1] == "B" && "B10"[1..][..2] == "10" && "B10"[1..][2..] == "";
    assert SplitDigitRuns("B10") == ["B", "10"] + SplitDigitRuns("");
    assert "2"[..0] == "" && "10"[..1] == "1" && "1"[..0] == "";
    assert DigitsValue("2") == 2;
    assert DigitsValue("1") == 1;
    assert DigitsValue("10") == 10;
    var pa, pb := ["B", "2", ""], ["B", "10", ""];
    assert PartValue(pa[0], 0) == PartValue(pb[0], 0);
    assert PartValue(pa[1], 1) == Number(2) && PartValue(pb[1], 1) == Number(10);
    assert CompareParts(pa, pb, 0) == CompareParts(pa, pb, 1) == -1;
    assert SplitDigitRuns("B2") == pa && SplitDigitRuns("B10") == pb;
    assert "B2" != "" && "B10" != "";
    assert LexLess("10", "2");
  }

  // ---------------------------------------------------------------------------
  // chunkArray

  function Flatten<T>(chunks: seq<seq<T>>): seq<T>
  {
    if |chunks| == 0 then [] else Flatten(chunks[..|chunks| - 1]) + chunks[|chunks| - 1]
  }

  lemma FlattenSnoc<T>(chunks: seq<seq<T>>, chunk: seq<T>)
    ensures Flatten(chunks + [chunk]) == Flatten(chunks) + chunk
  {
    assert (chunks + [chunk])[..|chunks|] == chunks;
  }

  function Min(a: int, b: int): int
  {
    if a < b then a else b
  }

  /** With `size` > 0, `n` chunks covering `len` elements, all full but a non-empty last one,
      number ⌈len / size⌉. */
  lemma CeilingCount(len: nat, size: nat, n: nat)
    requires size > 0
    requires n * size >= len
    requires n > 0 ==> (n - 1) * size < len
    ensures n == (len + size - 1) / size
  {
    var q := (len + size - 1) / size;
    var r := (len + size - 1) % size;
    assert len + size - 1 == q * size + r && 0 <= r < size;
    if n == 0 {
      assert len == 0;
    } else {
      if q < n {
        MulMonotone(q, n - 1, size);
        assert false;
      } else if q > n {
        MulMonotone(n + 1, q, size);
        assert false;
      }
    }
  }

  lemma MulMonotone(a: nat, b: nat, c: nat)
    requires a <= b
    ensures a * c <= b * c
  {
  }

  /** The loop state of `chunkArray` after `|chunks|` slices, `i` being the next start. */
  ghost predicate ChunksSoFar<T>(arr: seq<T>, size: int, chunks: seq<seq<T>>, i: int)
  {
    && 0 <= i
    && (|arr| > 0 ==> i == |chunks| * size)
    && (|chunks| > 0 ==> i - size < |arr|)
    && Flatten(chunks) == arr[..Min(i, |arr|)]
    && (forall k :: 0 <= k < |chunks| ==> 0 < |chunks[k]| <= size)
    && (forall k :: 0 <= k < |chunks| - 1 ==> |chunks[k]| == size)
    && (|chunks| > 0 && |chunks[|chunks| - 1]| < size ==> i >= |arr|)
  }

  /** One pass of the loop body. */
  lemma ChunkStep<T>(arr: seq<T>, size: int, chunks: seq<seq<T>>, i: int)
    requires size > 0 && i < |arr| && ChunksSoFar(arr, size, chunks, i)
    ensures ChunksSoFar(arr, size, chunks + [arr[i..Min(i + size, |arr|)]], i + size)
  {
    var chunk := arr[i..Min(i + size, |arr|)];
    var next := chunks + [chunk];
    assert arr[..Min(i + size, |arr|)] == arr[..i] + chunk;
    FlattenSnoc(chunks, chunk);
    assert (|chunks| + 1) * size == |chunks| * size + size;
    forall k | 0 <= k < |next| - 1 ensures |next[k]| == size {
      assert next[k] == chunks[k];
    }
  }

  /** `chunkArray(arr, size)`: consecutive slices of `size` elements, the last one possibly
      shorter. The loop ends only when `size` > 0 or the list is empty. */
  method ChunkArray<T>(arr: seq<T>, size: int) returns (chunks: seq<seq<T>>)
    requires size > 0 || |arr| == 0
    ensures Flatten(chunks) == arr
    ensures forall k :: 0 <= k < |chunks| ==> 0 < |chunks[k]| <= size
    ensures forall k :: 0 <= k < |chunks| - 1 ==> |chunks[k]| == size
    ensures |arr| == 0 ==> chunks == []
    ensures size > 0 ==> |chunks| == (|arr| + size - 1) / size
  {
    chunks := [];
    var i := 0;
    while i < |arr|
      invariant ChunksSoFar(arr, size, chunks, i)
      invariant |arr| == 0 ==> chunks == []
      decreases |arr| - i
    {
      ChunkStep(arr, size, chunks, i);
      chunks := chunks + [arr[i..Min(i + size, |arr|)]];
      i := i + size;
    }
    assert arr[..Min(i, |arr|)] == arr;
    if size > 0 {
      CeilingCount(|arr|, size, |chunks|);
    }
  }
}
