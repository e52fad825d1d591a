/**
  The pieces of a managed upload: slicing (`PreparedMultipartSource`), options, the
  record of finished parts and the check of a completion request.
 */
module MultipartParts {
  import opened Wire

  const MAX_PART_NUMBER: nat := 10_000
  const MIN_PART_SIZE: nat := 5 * 1024 * 1024
  const MAX_PART_SIZE: nat := 5 * 1024 * 1024 * 1024
  const MAX_CONCURRENCY: nat := 64

  datatype PartError =
    | EmptySource
    | TooManyParts
    | OffsetOverflow
    | OffsetBeyondSource
    | InvalidPartSize
    | InvalidConcurrency
    | BufferBoundOverflow

  // ----- options --------------------------------------------------------------------

  datatype Options = Options(partSize: nat, concurrency: nat)

  predicate ValidOptions(o: Options) {
    MIN_PART_SIZE <= o.partSize <= MAX_PART_SIZE && 1 <= o.concurrency <= MAX_CONCURRENCY
  }

  /** `MultipartOptions::new`, checked multiplication included. */
  function NewOptions(partSize: nat, concurrency: nat): (r: Result<Options, PartError>)
    ensures r.Ok? <==> ValidOptions(Options(partSize, concurrency))
    ensures r == Err(InvalidPartSize) <==> partSize < 5_242_880 || partSize > 5_368_709_120
    ensures r == Err(InvalidConcurrency) <==>
            5_242_880 <= partSize <= 5_368_709_120 && (concurrency < 1 || concurrency > 64)
    ensures r == Ok(Options(partSize, concurrency)) || r == Err(InvalidPartSize) || r == Err(InvalidConcurrency)
  {
    if !(MIN_PART_SIZE <= partSize <= MAX_PART_SIZE) then Err(InvalidPartSize)
    else if !(1 <= concurrency <= MAX_CONCURRENCY) then Err(InvalidConcurrency)
    else
      assert partSize * concurrency <= MAX_PART_SIZE * MAX_CONCURRENCY;
      if partSize * concurrency > U64_MAX then Err(BufferBoundOverflow)
      else Ok(Options(partSize, concurrency))
  }

  function MaximumBufferedBytes(o: Options): nat {
    o.partSize * o.concurrency
  }

  // ----- slicing ----------------------------------------------------------------------

  function DivCeil(a: nat, b: nat): nat
    requires b > 0
  {
    (a + b - 1) / b
  }

  /** `part_count`. */
  function PartCount(length: nat, partSize: nat): Result<nat, PartError>
    requires partSize > 0
  {
    if length == 0 then Err(EmptySource)
    else if DivCeil(length, partSize) > MAX_PART_NUMBER then Err(TooManyParts)
    else Ok(DivCeil(length, partSize))
  }

  /** `read_part`, with its checked arithmetic; an in-memory length fits in `u64`. */
  function ReadPart(source: Text, partSize: nat, number: nat): Result<Text, PartError>
    requires partSize > 0 && number >= 1
  {
    var offset := (number - 1) * partSize;
    if offset > U64_MAX then Err(OffsetOverflow)
    else if offset > |source| then Err(OffsetBeyondSource)
    else
      var remaining := |source| - offset;
      var length := if remaining < partSize then remaining else partSize;
      Ok(source[offset..offset + length])
  }

  /** Where part `number` ends. */
  function Boundary(source: Text, partSize: nat, number: nat): (end: nat)
    ensures end <= |source|
  {
    if number * partSize < |source| then number * partSize else |source|
  }

  lemma DivCeilBounds(a: nat, b: nat, n: nat)
    requires b > 0 && n == DivCeil(a, b)
    ensures a <= n * b
    ensures n > 0 ==> (n - 1) * b < a
    ensures a > 0 ==> n > 0
  {
    var x := a + b - 1;
    assert x == n * b + x % b;
    assert (n - 1) * b == n * b - b;
  }

  /** Every part of the plan can be read, is not empty, and lies between its boundaries. */
  lemma ReadPartSucceeds(source: Text, partSize: nat, number: nat)
    requires partSize > 0 && |source| <= U64_MAX
    requires PartCount(|source|, partSize).Ok? && 1 <= number <= PartCount(|source|, partSize).value
    ensures (number - 1) * partSize < |source|
    ensures var from, to := Boundary(source, partSize, number - 1), Boundary(source, partSize, number);
            && from < to <= from + partSize
            && ReadPart(source, partSize, number) == Ok(source[from..to])
  {
    var n := PartCount(|source|, partSize).value;
    DivCeilBounds(|source|, partSize, n);
    MulMonotone(number - 1, n - 1, partSize);
    assert number * partSize == (number - 1) * partSize + partSize;
  }

  /** Beyond the source nothing is read. */
  lemma ReadPartRefuses(source: Text, partSize: nat, number: nat)
    requires partSize > 0 && number >= 1 && (number - 1) * partSize > |source|
    ensures ReadPart(source, partSize, number) ==
            Err(if (number - 1) * partSize >= 0x1_0000_0000_0000_0000 then OffsetOverflow else OffsetBeyondSource)
  {
  }

  lemma Boundaries(source: Text, partSize: nat)
    requires partSize > 0 && PartCount(|source|, partSize).Ok?
    ensures Boundary(source, partSize, 0) == 0
    ensures Boundary(source, partSize, PartCount(|source|, partSize).value) == |source|
  {
    DivCeilBounds(|source|, partSize, PartCount(|source|, partSize).value);
    assert 0 * partSize == 0;
  }

  /** The bytes of one part. */
  function Part(source: Text, partSize: nat, number: nat): Text
    requires number >= 1
  {
    var from, to := Boundary(source, partSize, number - 1), Boundary(source, partSize, number);
    if from <= to then source[from..to] else []
  }

  function Flatten(bodies: seq<Text>): Text {
    if bodies == [] then [] else Flatten(bodies[..|bodies| - 1]) + bodies[|bodies| - 1]
  }

  lemma {:induction false} FlattenParts(source: Text, partSize: nat, bodies: seq<Text>, i: nat)
    requires partSize > 0 && |source| <= U64_MAX
    requires PartCount(|source|, partSize).Ok?
    requires i <= |bodies| == PartCount(|source|, partSize).value
    requires forall k :: 0 <= k < |bodies| ==> bodies[k] == Part(source, partSize, k + 1)
    ensures Flatten(bodies[..i]) == source[..Boundary(source, partSize, i)]
  {
    hide PartCount, ReadPart;
    if i == 0 {
      Boundaries(source, partSize);
    } else {
      FlattenParts(source, partSize, bodies, i - 1);
      ReadPartSucceeds(source, partSize, i);
      assert bodies[..i][..i - 1] == bodies[..i - 1];
      var from, to := Boundary(source, partSize, i - 1), Boundary(source, partSize, i);
      assert source[..from] + source[from..to] == source[..to];
    }
  }

  /** The parts of the plan, in order, are the source: nothing lost, repeated or moved. */
  lemma PartsAreTheSource(source: Text, partSize: nat, bodies: seq<Text>)
    requires partSize > 0 && |source| <= U64_MAX
    requires PartCount(|source|, partSize).Ok?
    requires |bodies| == PartCount(|source|, partSize).value
    requires forall k :: 0 <= k < |bodies| ==> bodies[k] == Part(source, partSize, k + 1)
    ensures Flatten(bodies) == source
  {
    FlattenParts(source, partSize, bodies, |bodies|);
    Boundaries(source, partSize);
    assert bodies[..|bodies|] == bodies && source[..|source|] == source;
  }

  // ----- the record of finished parts ----------------------------------------------------

  datatype CompletedPart = CompletedPart(number: nat, etag: string)

  datatype RecordError = DuplicatePart(number: nat) | NoCompletedParts | OutOfOrder(previous: nat, next: nat)

  ghost predicate Ascending(parts: seq<CompletedPart>) {
    forall i, j :: 0 <= i < j < |parts| ==> parts[i].number < parts[j].number
  }

  function Numbers(parts: seq<CompletedPart>): set<nat> {
    set p | p in parts :: p.number
  }

  /** Where a part number belongs: the number of recorded parts below it. */
  function Position(parts: seq<CompletedPart>, number: nat): (i: nat)
    ensures i <= |parts|
  {
    if parts == [] || parts[0].number >= number then 0 else 1 + Position(parts[1..], number)
  }

  function Record(parts: seq<CompletedPart>, part: CompletedPart): Result<seq<CompletedPart>, RecordError> {
    var i := Position(parts, part.number);
    if i < |parts| && parts[i].number == part.number then Err(DuplicatePart(part.number))
    else Ok(parts[..i] + [part] + parts[i..])
  }

  lemma {:induction false} PositionMeaning(parts: seq<CompletedPart>, number: nat)
    requires Ascending(parts)
    ensures var i := Position(parts, number);
            && (forall j :: 0 <= j < i ==> parts[j].number < number)
            && (forall j :: i <= j < |parts| ==> parts[j].number >= number)
  {
    if parts != [] && parts[0].number < number {
      PositionMeaning(parts[1..], number);
    }
  }

  lemma AscendingAt(parts: seq<CompletedPart>, i: nat, j: nat)
    requires Ascending(parts) && i <= j < |parts|
    ensures i == j || parts[i].number < parts[j].number
    ensures parts[i].number in Numbers(parts) && parts[j].number in Numbers(parts)
  {
  }

  /** A number that is already recorded is the one at its position. */
  lemma PositionOfPresent(parts: seq<CompletedPart>, number: nat)
    requires Ascending(parts) && number in Numbers(parts)
    ensures var i := Position(parts, number);
            i < |parts| && parts[i].number == number
  {
    var i := Position(parts, number);
    PositionMeaning(parts, number);
    var j := IndexOf(parts, number);
    AscendingAt(parts, i, j);
  }

  lemma InsertAscends(parts: seq<CompletedPart>, part: CompletedPart)
    requires Ascending(parts) && part.number !in Numbers(parts)
    ensures var i := Position(parts, part.number);
            && (i < |parts| ==> parts[i].number != part.number)
            && Ascending(parts[..i] + [part] + parts[i..])
  {
    hide Numbers, Position, Ascending;
    var i := Position(parts, part.number);
    PositionMeaning(parts, part.number);
    forall k | 0 <= k < |parts| ensures parts[k].number != part.number {
      AscendingAt(parts, k, k);
    }
    InsertBetween(parts, part, i);
  }

  lemma InsertBetween(parts: seq<CompletedPart>, part: CompletedPart, i: nat)
    requires Ascending(parts) && i <= |parts|
    requires forall j :: 0 <= j < i ==> parts[j].number < part.number
    requires forall j :: i <= j < |parts| ==> parts[j].number > part.number
    ensures Ascending(parts[..i] + [part] + parts[i..])
  {
    var r := parts[..i] + [part] + parts[i..];
    forall a, b | 0 <= a < b < |r| ensures r[a].number < r[b].number {
      assert r[a] == if a < i then parts[a] else if a == i then part else parts[a - 1];
      assert r[b] == if b < i then parts[b] else if b == i then part else parts[b - 1];
    }
  }

  /** Recording keeps the order, adds one number, and refuses exactly the numbers already there. */
  lemma RecordMeaning(parts: seq<CompletedPart>, part: CompletedPart)
    requires Ascending(parts)
    ensures Record(parts, part).Err? <==> part.number in Numbers(parts)
    ensures Record(parts, part).Err? ==> Record(parts, part) == Err(DuplicatePart(part.number))
    ensures Record(parts, part).Ok? ==>
              var r := Record(parts, part).value;
              && Ascending(r) && |r| == |parts| + 1
              && Numbers(r) == Numbers(parts) + {part.number}
              && (forall p :: p in r <==> p in parts || p == part)
  {
    hide Ascending, Numbers, Position;
    if part.number in Numbers(parts) {
      PositionOfPresent(parts, part.number);
    } else {
      InsertAscends(parts, part);
      RecordContents(parts, part, Position(parts, part.number));
    }
  }

  lemma RecordContents(parts: seq<CompletedPart>, part: CompletedPart, i: nat)
    requires i <= |parts|
    ensures var r := parts[..i] + [part] + parts[i..];
            && (forall p :: p in r <==> p in parts || p == part)
            && Numbers(r) == Numbers(parts) + {part.number}
  {
    var r := parts[..i] + [part] + parts[i..];
    assert parts == parts[..i] + parts[i..];
    forall p ensures p in r <==> p in parts || p == part {
      assert p in parts <==> p in parts[..i] || p in parts[i..];
    }
    forall n ensures n in Numbers(r) <==> n in Numbers(parts) + {part.number} {
    }
  }

  /** `binary_search_by_key` on part numbers. */
  method BinarySearch(parts: seq<CompletedPart>, number: nat) returns (found: bool, index: nat)
    requires Ascending(parts)
    ensures index == Position(parts, number)
    ensures found <==> index < |parts| && parts[index].number == number
  {
    var low, high := 0, |parts|;
    while low < high
      invariant 0 <= low <= high <= |parts|
      invariant forall j :: 0 <= j < low ==> parts[j].number < number
      invariant forall j :: high <= j < |parts| ==> parts[j].number > number
    {
      var mid := low + (high - low) / 2;
      if parts[mid].number == number {
        PositionUnique(parts, number, mid);
        return true, mid;
      } else if parts[mid].number < number {
        low := mid + 1;
      } else {
        high := mid;
      }
    }
    PositionUnique(parts, number, low);
    return false, low;
  }

  lemma PositionUnique(parts: seq<CompletedPart>, number: nat, i: nat)
    requires Ascending(parts) && i <= |parts|
    requires forall j :: 0 <= j < i ==> parts[j].number < number
    requires i < |parts| ==> parts[i].number >= number
    ensures i == Position(parts, number)
  {
    PositionMeaning(parts, number);
    var k := Position(parts, number);
    var atPosition := if k < |parts| then parts[k].number else number;
  }

  /** `MultipartUpload`, as far as the record of its parts. */
  class MultipartUpload {
    var completedParts: seq<CompletedPart>

    constructor ()
      ensures completedParts == []
    {
      completedParts := [];
    }

    /** `record_part`. */
    method RecordPart(part: CompletedPart) returns (error: Option<RecordError>)
      requires Ascending(completedParts)
      modifies this
      ensures Ascending(completedParts)
      ensures match Record(old(completedParts), part)
              case Ok(parts) => error == None && completedParts == parts
              case Err(e) => error == Some(e) && completedParts == old(completedParts)
    {
      var found, index := BinarySearch(completedParts, part.number);
      RecordMeaning(completedParts, part);
      if found {
        return Some(DuplicatePart(part.number));
      }
      completedParts := completedParts[..index] + [part] + completedParts[index..];
      return None;
    }
  }

  // ----- completion requests ---------------------------------------------------------------

  /** `validate_completed_parts`: a scan of adjacent pairs from index i. */
  function Scan(parts: seq<CompletedPart>, i: nat): Option<RecordError>
    requires 1 <= i <= |parts|
    decreases |parts| - i
  {
    if i == |parts| then None
    else if parts[i].number <= parts[i - 1].number then Some(OutOfOrder(parts[i - 1].number, parts[i].number))
    else Scan(parts, i + 1)
  }

  function Validate(parts: seq<CompletedPart>): Option<RecordError> {
    if parts == [] then Some(NoCompletedParts) else Scan(parts, 1)
  }

  /** The first part that does not come after its predecessor, and that predecessor. */
  ghost predicate FirstDisorder(parts: seq<CompletedPart>, e: RecordError) {
    e.OutOfOrder? && exists i :: 0 < i < |parts| && DisorderAt(parts, i, e)
  }

  ghost predicate DisorderAt(parts: seq<CompletedPart>, i: nat, e: RecordError)
    requires 0 < i < |parts| && e.OutOfOrder?
  {
    && Ascending(parts[..i]) && parts[i].number <= parts[i - 1].number
    && e.previous == parts[i - 1].number && e.next == parts[i].number
  }

  lemma {:induction false} ScanMeaning(parts: seq<CompletedPart>, i: nat)
    requires 1 <= i <= |parts| && Ascending(parts[..i])
    ensures Scan(parts, i) == None <==> Ascending(parts)
    ensures Scan(parts, i).Some? ==> FirstDisorder(parts, Scan(parts, i).value)
    decreases |parts| - i
  {
    if i == |parts| {
      assert parts[..i] == parts;
    } else if parts[i].number > parts[i - 1].number {
      var more := parts[..i + 1];
      assert forall j :: 0 <= j < i ==> more[j] == parts[..i][j];
      assert parts[..i][i - 1] == parts[i - 1];
      ScanMeaning(parts, i + 1);
    } else {
      assert DisorderAt(parts, i, Scan(parts, i).value);
    }
  }

  /** The scan accepts exactly the non-empty strictly ascending lists. */
  lemma ValidateMeaning(parts: seq<CompletedPart>)
    ensures Validate(parts) == None <==> parts != [] && Ascending(parts)
    ensures Validate(parts) == Some(NoCompletedParts) <==> parts == []
    ensures Validate(parts).Some? && parts != [] ==> FirstDisorder(parts, Validate(parts).value)
  {
    if parts != [] {
      ScanMeaning(parts, 1);
    }
  }

  /** The part numbers 1..n. */
  function UpTo(n: nat): (r: set<nat>)
    ensures forall k :: k in r <==> 1 <= k <= n
    ensures |r| == n
  {
    if n == 0 then {} else UpTo(n - 1) + {n}
  }

  /** Ascending numbers that are exactly 1..n are 1..n in order. */
  lemma {:induction false} AscendingRange(parts: seq<CompletedPart>, n: nat)
    requires Ascending(parts) && Numbers(parts) == UpTo(n)
    ensures |parts| == n && forall i :: 0 <= i < n ==> parts[i].number == i + 1
  {
    hide Numbers, Ascending;
    if n == 0 {
      NoNumbers(parts);
    } else {
      var j := IndexOf(parts, n);
      var last := |parts| - 1;
      AscendingAt(parts, j, last);
      DropLast(parts, n);
      FrontAscends(parts);
      AscendingRange(parts[..last], n - 1);
    }
  }

  lemma NoNumbers(parts: seq<CompletedPart>)
    requires Numbers(parts) == {}
    ensures parts == []
  {
    assert parts != [] ==> parts[0].number in Numbers(parts);
  }

  lemma FrontAscends(parts: seq<CompletedPart>)
    requires Ascending(parts) && parts != []
    ensures Ascending(parts[..|parts| - 1])
  {
  }

  lemma IndexOf(parts: seq<CompletedPart>, number: nat) returns (j: nat)
    requires number in Numbers(parts)
    ensures j < |parts| && parts[j].number == number
  {
    var p :| p in parts && p.number == number;
    j :| 0 <= j < |parts| && parts[j] == p;
  }

  lemma DropLast(parts: seq<CompletedPart>, n: nat)
    requires n > 0 && Ascending(parts) && Numbers(parts) == UpTo(n)
    requires parts != [] && parts[|parts| - 1].number == n
    ensures Numbers(parts[..|parts| - 1]) == UpTo(n - 1)
  {
    var front := parts[..|parts| - 1];
    forall k | k in Numbers(front) ensures k in UpTo(n - 1) {
      var a := IndexOf(front, k);
      assert parts[a].number in Numbers(parts);
    }
    forall k | k in UpTo(n - 1) ensures k in Numbers(front) {
      var a := IndexOf(parts, k);
      assert front[a] in front;
    }
  }
}
