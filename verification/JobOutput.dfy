/** Paging through the retained output of a Job by UTF-8 byte cursors. */
module JobOutput {
  import opened Prelude
  import opened Utf8
  import opened RecordLimits

  const DEFAULT_OUTPUT_CHUNK_BYTES := 4 * 1024
  const MIN_OUTPUT_CHUNK_BYTES := 4
  const MAX_OUTPUT_CHUNK_BYTES := 16 * 1024

  datatype ReadOptions = ReadOptions(cursor: Option<int>, maxBytes: Option<int>, subtaskId: Option<string>)

  /** The parts of a Job that a reader looks at: its delegated subtask id and its output. */
  datatype Job = Job(delegatedSubtaskId: Option<string>, output: Option<Text>)

  datatype ReadError = InvalidCursor | InvalidLimit | InvalidSubtask | CursorBeyondOutput | NotACharacterBoundary

  datatype Reason = JobNotFound | SubtaskNotFound | OutputUnavailable

  datatype Read =
    | Unavailable(reason: Reason)
    | Available(chunk: Text, cursor: nat, nextCursor: Option<nat>, hasMore: bool, totalBytes: nat)

  function LimitOf(options: ReadOptions): int {
    if options.maxBytes == None then DEFAULT_OUTPUT_CHUNK_BYTES else options.maxBytes.value
  }

  function CursorOf(options: ReadOptions): int {
    if options.cursor == None then 0 else options.cursor.value
  }

  predicate ValidOptions(options: ReadOptions) {
    && CursorOf(options) >= 0
    && MIN_OUTPUT_CHUNK_BYTES <= LimitOf(options) <= MAX_OUTPUT_CHUNK_BYTES
    && (options.subtaskId.Some? ==> 1 <= |options.subtaskId.value| <= 256)
  }

  /** The position is the end of the output or the first byte of a character. */
  predicate StartsCharacter(output: Text, p: nat) {
    exists k | 0 <= k <= |output| :: Boundary(output, k) == p
  }

  /** The chunk is what follows the cursor: whole characters, as many as fit, and the next cursor is their end. */
  predicate IsPage(output: Text, budget: nat, page: Read) {
    && page.Available?
    && page.totalBytes == |Encode(output)|
    && exists k | 0 <= k <= |output| ::
      && Boundary(output, k) == page.cursor
      && k + |page.chunk| <= |output|
      && page.chunk == output[k..k + |page.chunk|]
      && PageEnds(output, k, k + |page.chunk|, budget, page)
  }

  predicate PageEnds(output: Text, k: nat, m: nat, budget: nat, page: Read)
    requires page.Available? && k <= m <= |output|
  {
    && Boundary(output, m) <= Boundary(output, k) + budget
    && (m < |output| ==> Boundary(output, m + 1) > Boundary(output, k) + budget)
    && page.hasMore == (m < |output|)
    && page.nextCursor == if page.hasMore then Some(Boundary(output, m)) else None
  }

  lemma {:induction false} StartsCharacterExactlyWhen(output: Text, p: nat)
    requires p < |Encode(output)|
    ensures StartsCharacter(output, p) <==> !IsContinuation(Encode(output)[p])
  {
    if !IsContinuation(Encode(output)[p]) {
      var k := PositionIsBoundary(output, p);
    }
    if k :| 0 <= k <= |output| && Boundary(output, k) == p {
      assert output[..|output|] == output;
      BoundaryIsPosition(output, k);
    }
  }

  /** The caller named no subtask, or the one that this Job was delegated. */
  predicate AsksFor(options: ReadOptions, job: Job) {
    options.subtaskId.Some? ==> job.delegatedSubtaskId == options.subtaskId
  }

  /** `readJobOutputRecord`. */
  method ReadJobOutputRecord(job: Option<Job>, options: ReadOptions) returns (r: Result<Read, ReadError>)
    ensures !ValidOptions(options) ==>
      r == Err(if CursorOf(options) < 0 then InvalidCursor
               else if !(4 <= LimitOf(options) <= 16_384) then InvalidLimit
               else InvalidSubtask)
    ensures ValidOptions(options) && job == None ==> r == Ok(Unavailable(JobNotFound))
    ensures ValidOptions(options) && job.Some? && !AsksFor(options, job.value) ==> r == Ok(Unavailable(SubtaskNotFound))
    ensures ValidOptions(options) && job.Some? && AsksFor(options, job.value) ==>
      if job.value.output == None then r == Ok(Unavailable(OutputUnavailable))
      else
        var output, cursor := job.value.output.value, CursorOf(options);
        if cursor > |Encode(output)| then r == Err(CursorBeyondOutput)
        else if !StartsCharacter(output, cursor) then r == Err(NotACharacterBoundary)
        else r.Ok? && r.value.Available? && r.value.cursor == cursor && IsPage(output, LimitOf(options), r.value)
  {
    var cursor, maxBytes := CursorOf(options), LimitOf(options);
    if cursor < 0 {
      return Err(InvalidCursor);
    }
    if maxBytes < MIN_OUTPUT_CHUNK_BYTES || maxBytes > MAX_OUTPUT_CHUNK_BYTES {
      return Err(InvalidLimit);
    }
    if options.subtaskId.Some? && (|options.subtaskId.value| < 1 || |options.subtaskId.value| > 256) {
      return Err(InvalidSubtask);
    }
    if job == None {
      return Ok(Unavailable(JobNotFound));
    }
    if !AsksFor(options, job.value) {
      return Ok(Unavailable(SubtaskNotFound));
    }
    if job.value.output == None {
      return Ok(Unavailable(OutputUnavailable));
    }
    var output := job.value.output.value;
    var encoded := Encode(output);
    if cursor > |encoded| {
      return Err(CursorBeyondOutput);
    }
    if cursor < |encoded| {
      StartsCharacterExactlyWhen(output, cursor);
    }
    if cursor < |encoded| && IsContinuation(encoded[cursor]) {
      return Err(NotACharacterBoundary);
    }
    var page := ReadPage(output, cursor, maxBytes);
    return Ok(page);
  }

  /** The loop that moves the end of the chunk back to a character boundary. */
  method ReadPage(output: Text, cursor: nat, maxBytes: nat) returns (page: Read)
    requires cursor <= |Encode(output)| && maxBytes >= MIN_OUTPUT_CHUNK_BYTES
    requires cursor < |Encode(output)| ==> !IsContinuation(Encode(output)[cursor])
    ensures page.Available? && page.cursor == cursor && IsPage(output, maxBytes, page)
    ensures StartsCharacter(output, cursor)
  {
    hide IsPage, StartsCharacter, Encode, Decode, Boundary, IsContinuation;
    var encoded := Encode(output);
    var limit := if cursor + maxBytes < |encoded| then cursor + maxBytes else |encoded|;
    var end := limit;
    while end > cursor && end < |encoded| && IsContinuation(encoded[end])
      invariant cursor <= end <= limit && (limit == |encoded| ==> end == limit)
      invariant forall p | end < p <= limit && p < |encoded| :: IsContinuation(encoded[p])
    {
      end := end - 1;
    }
    ghost var k := PositionIsBoundary(output, cursor);
    ghost var m := PositionIsBoundary(output, end);
    ChunkIs(output, k, m);
    var chunk := Decode(encoded[cursor..end]).value;
    var hasMore := end < |encoded|;
    page := Available(chunk, cursor, if hasMore then Some(end) else None, hasMore, |encoded|);
    ChunkEnds(output, k, m, maxBytes);
    PageMade(output, k, m, maxBytes, page);
  }

  lemma {:induction false} PageMade(output: Text, k: nat, m: nat, budget: nat, page: Read)
    requires k <= m <= |output| && page.Available? && page.chunk == output[k..m]
    requires page.cursor == Boundary(output, k) && page.totalBytes == |Encode(output)|
    requires PageEnds(output, k, m, budget, page)
    ensures IsPage(output, budget, page) && StartsCharacter(output, page.cursor)
  {
    hide Boundary, Encode;
    assert PageEnds(output, k, k + |page.chunk|, budget, page);
  }

  /** The bytes between two boundaries decode to the characters between them. */
  lemma {:induction false} ChunkIs(output: Text, k: nat, m: nat)
    requires k <= |output| && m <= |output| && Boundary(output, k) <= Boundary(output, m)
    ensures k <= m && Boundary(output, m) <= |Encode(output)|
    ensures Decode(Encode(output)[Boundary(output, k)..Boundary(output, m)]) == Some(output[k..m])
  {
    if m < k {
      BoundariesIncrease(output, m, k);
    }
    CutAtBoundary(output, m);
    CutAtBoundary(output[..m], k);
    assert output[..m][..k] == output[..k] && output[..m][k..] == output[k..m];
    DecodeEncode(output[k..m]);
    assert Encode(output)[Boundary(output, k)..Boundary(output, m)]
        == Encode(output)[..Boundary(output, m)][Boundary(output, k)..];
  }

  lemma {:induction false} ChunkEnds(output: Text, k: nat, m: nat, budget: nat)
    requires k <= m <= |output| && Boundary(output, m) <= |Encode(output)|
    requires Boundary(output, m) <= Boundary(output, k) + budget
    requires forall p | Boundary(output, m) < p <= Boundary(output, k) + budget && p < |Encode(output)| ::
      IsContinuation(Encode(output)[p])
    requires Boundary(output, m) < |Encode(output)| ==> Boundary(output, k) + budget < |Encode(output)|
    ensures Boundary(output, m) < |Encode(output)| <==> m < |output|
    ensures m < |output| ==> Boundary(output, m + 1) > Boundary(output, k) + budget
  {
    assert output[..|output|] == output;
    if m < |output| {
      NextBoundary(output, m);
      if m + 1 < |output| {
        BoundaryIsPosition(output, m + 1);
      }
    }
  }

  /** A page that is not the last one holds at least one character, so its next cursor is further on. */
  lemma {:induction false} PageAdvances(output: Text, k: nat, m: nat, budget: nat)
    requires k <= m < |output| && budget >= MIN_OUTPUT_CHUNK_BYTES
    requires Boundary(output, m + 1) > Boundary(output, k) + budget
    ensures k < m
  {
    NextBoundary(output, k);
  }

  /** The method's page, in terms of characters. */
  lemma {:induction false} PageFrom(output: Text, k: nat, budget: nat, page: Read)
    requires IsPage(output, budget, page) && k <= |output| && Boundary(output, k) == page.cursor
    ensures k + |page.chunk| <= |output| && page.chunk == output[k..k + |page.chunk|]
    ensures PageEnds(output, k, k + |page.chunk|, budget, page)
  {
    hide Boundary, PageEnds;
    var j :| 0 <= j <= |output|
      && Boundary(output, j) == page.cursor
      && j + |page.chunk| <= |output|
      && page.chunk == output[j..j + |page.chunk|]
      && PageEnds(output, j, j + |page.chunk|, budget, page);
    if j < k {
      BoundariesIncrease(output, j, k);
    } else if k < j {
      BoundariesIncrease(output, k, j);
    }
  }

  /**
   * A reader that starts at 0 and follows `nextCursor`, with any page sizes, never meets an error,
   * comes to an end, and has then read exactly the retained output.
   */
  method ReadAll(output: Text, sizes: nat -> int) returns (text: Text, pages: nat)
    requires forall i :: MIN_OUTPUT_CHUNK_BYTES <= sizes(i) <= MAX_OUTPUT_CHUNK_BYTES
    ensures text == output
    ensures pages <= |output| + 1
  {
    hide IsPage, Boundary;
    var cursor := 0;
    text, pages := [], 0;
    var more := true;
    ZeroBoundary(output);
    while more
      invariant text <= output && pages <= |text| + if more then 0 else 1
      invariant if more then Boundary(output, |text|) == cursor else text == output
      decreases |output| - |text|, more
    {
      var r := ReadJobOutputRecord(Some(Job(None, Some(output))), ReadOptions(Some(cursor), Some(sizes(pages)), None));
      CursorIsFine(output, |text|);
      var page := r.value;
      PageFrom(output, |text|, sizes(pages), page);
      if page.hasMore {
        PageAdvances(output, |text|, |text| + |page.chunk|, sizes(pages));
        cursor := page.nextCursor.value;
      }
      pages := pages + 1;
      more := page.hasMore;
      text := text + page.chunk;
    }
  }

  lemma {:induction false} ZeroBoundary(output: Text)
    ensures Boundary(output, 0) == 0
  {
  }

  lemma {:induction false} CursorIsFine(output: Text, k: nat)
    requires k <= |output|
    ensures Boundary(output, k) <= |Encode(output)| && StartsCharacter(output, Boundary(output, k))
  {
    CutAtBoundary(output, k);
  }
}
