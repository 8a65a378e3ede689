/** Sampling a compression dictionary from the keys and values of the first output file, as they stream by. */
module DictionarySampler {

  const SAMPLE_LEN := 64

  /** An ordered set of sample offsets: distinct multiples of the sample length. */
  predicate SampleOffsets(samples: seq<nat>) {
    && (forall i :: 0 <= i < |samples| ==> samples[i] % SAMPLE_LEN == 0)
    && (forall i, j :: 0 <= i < j < |samples| ==> samples[i] < samples[j])
  }

  lemma SamplesApart(samples: seq<nat>, i: nat, j: nat)
    requires SampleOffsets(samples) && i < j < |samples|
    ensures samples[i] + SAMPLE_LEN <= samples[j]
  {
  }

  // ---- The batch definition ----

  /** The bytes of the sample at offset `b` that the stream has. */
  function Chunk(b: nat, stream: string): string {
    if b >= |stream| then ""
    else if b + SAMPLE_LEN <= |stream| then stream[b..b + SAMPLE_LEN]
    else stream[b..]
  }

  function Batch(samples: seq<nat>, stream: string): string {
    if samples == [] then ""
    else Batch(samples[..|samples| - 1], stream) + Chunk(samples[|samples| - 1], stream)
  }

  function Flatten(elements: seq<string>): string {
    if elements == [] then "" else Flatten(elements[..|elements| - 1]) + elements[|elements| - 1]
  }

  // ---- Samples that lie wholly before or after a position ----

  lemma {:induction false} BatchUnfinished(samples: seq<nat>, i: nat, stream: string)
    requires i <= |samples| && forall j :: i <= j < |samples| ==> samples[j] >= |stream|
    ensures Batch(samples, stream) == Batch(samples[..i], stream)
  {
    if i < |samples| {
      var most := samples[..|samples| - 1];
      BatchUnfinished(most, i, stream);
      assert most[..i] == samples[..i];
    } else {
      assert samples[..i] == samples;
    }
  }

  lemma {:induction false} BatchFinished(samples: seq<nat>, stream: string, longer: string)
    requires stream <= longer && forall j :: 0 <= j < |samples| ==> samples[j] + SAMPLE_LEN <= |stream|
    ensures Batch(samples, stream) == Batch(samples, longer)
  {
    hide Chunk;
    if samples != [] {
      BatchFinished(samples[..|samples| - 1], stream, longer);
      ChunkFinished(samples[|samples| - 1], stream, longer);
    }
  }

  lemma ChunkFinished(b: nat, stream: string, longer: string)
    requires stream <= longer && b + SAMPLE_LEN <= |stream|
    ensures Chunk(b, stream) == Chunk(b, longer)
  {
  }

  // ---- The streaming sampler ----

  /** Before a data element that starts at `begin`, the next sample has not ended yet. */
  ghost predicate Cursor(samples: seq<nat>, i: nat, begin: nat) {
    && i <= |samples|
    && (forall j :: 0 <= j < i ==> samples[j] + SAMPLE_LEN <= begin)
    && (i < |samples| ==> begin < samples[i] + SAMPLE_LEN)
  }

  /** Inside an element that ends where `stream` ends: the samples before `i` are complete and sample `i`
      holds what came before the element. */
  ghost predicate Taking(samples: seq<nat>, i: nat, begin: nat, stream: string, dict: string)
    requires begin <= |stream|
  {
    && i <= |samples|
    && (forall j :: 0 <= j < i ==> samples[j] + SAMPLE_LEN <= |stream|)
    && (i < |samples| ==> begin < samples[i] + SAMPLE_LEN)
    && dict == Batch(samples[..i], stream) + if i < |samples| then Chunk(samples[i], stream[..begin]) else ""
  }

  lemma StartElement(samples: seq<nat>, i: nat, begin: nat, stream: string)
    requires SampleOffsets(samples) && begin <= |stream| && Cursor(samples, i, begin)
    ensures Taking(samples, i, begin, stream, Batch(samples, stream[..begin]))
  {
    BatchFinished(samples[..i], stream[..begin], stream);
    if i < |samples| {
      forall j | i < j < |samples| ensures samples[j] >= begin { SamplesApart(samples, i, j); }
      BatchUnfinished(samples, i + 1, stream[..begin]);
      assert samples[..i + 1][..i] == samples[..i];
    } else {
      assert samples[..i] == samples;
    }
  }

  lemma BatchSnoc(samples: seq<nat>, i: nat, stream: string)
    requires i < |samples|
    ensures Batch(samples[..i + 1], stream) == Batch(samples[..i], stream) + Chunk(samples[i], stream)
  {
    assert samples[..i + 1][..i] == samples[..i];
  }

  /** Where the element's contribution to the sample at `b` starts and ends in the stream. */
  function From(b: nat, begin: nat): nat { if b <= begin then begin else b }

  function To(b: nat, end: nat): nat { if b + SAMPLE_LEN <= end then b + SAMPLE_LEN else end }

  /** Appending the part of the element that sample `i` covers completes what the stream has of it. */
  lemma TakeFromElement(samples: seq<nat>, i: nat, begin: nat, stream: string, dict: string, from: nat, len: nat)
    requires begin <= |stream| && Taking(samples, i, begin, stream, dict)
    requires i < |samples| && samples[i] < |stream|
    requires from == if samples[i] <= begin then 0 else samples[i] - begin
    requires len == (if samples[i] + SAMPLE_LEN <= |stream| then samples[i] + SAMPLE_LEN else |stream|) - (begin + from)
    ensures from + len <= |stream[begin..]|
    ensures dict + stream[begin..][from..from + len] == Batch(samples[..i + 1], stream)
  {
    hide Chunk, Batch;
    ChunkGrows(samples[i], begin, stream);
    BatchSnoc(samples, i, stream);
    Slice(stream, begin, from, from + len);
    Assoc(Batch(samples[..i], stream), Chunk(samples[i], stream[..begin]),
          stream[From(samples[i], begin)..To(samples[i], |stream|)]);
  }

  lemma Assoc(a: string, b: string, c: string)
    ensures (a + b) + c == a + (b + c)
  {
  }

  lemma ChunkGrows(b: nat, begin: nat, stream: string)
    requires b < |stream| && begin <= |stream| && begin < b + SAMPLE_LEN
    ensures From(b, begin) <= To(b, |stream|) <= |stream|
    ensures Chunk(b, stream[..begin]) + stream[From(b, begin)..To(b, |stream|)] == Chunk(b, stream)
  {
    if b < begin {
      assert stream[..begin][b..] == stream[b..begin];
    }
  }

  lemma Finished(samples: seq<nat>, i: nat, begin: nat, stream: string, dict: string)
    requires SampleOffsets(samples) && begin <= |stream| && Taking(samples, i, begin, stream, dict)
    requires i < |samples| && |stream| < samples[i] + SAMPLE_LEN
    ensures Batch(samples[..i + 1], stream) == Batch(samples, stream) && Cursor(samples, i, |stream|)
  {
    forall j | i < j < |samples| ensures samples[j] >= |stream| { SamplesApart(samples, i, j); }
    BatchUnfinished(samples, i + 1, stream);
  }

  lemma Exhausted(samples: seq<nat>, i: nat, begin: nat, stream: string, dict: string)
    requires SampleOffsets(samples) && begin <= |stream| && Taking(samples, i, begin, stream, dict)
    requires i < |samples| ==> samples[i] >= |stream|
    ensures dict == Batch(samples, stream) && Cursor(samples, i, |stream|)
  {
    forall j | i <= j < |samples| ensures samples[j] >= |stream| {
      if i < j { SamplesApart(samples, i, j); }
    }
    BatchUnfinished(samples, i, stream);
  }

  /** One data element: copy the portions that samples cover. */
  method AddElement(samples: seq<nat>, i: nat, begin: nat, element: string, dict: string, ghost stream: string)
    returns (i': nat, dict': string)
    requires SampleOffsets(samples) && begin + |element| == |stream| && stream[begin..] == element
    requires Cursor(samples, i, begin) && dict == Batch(samples, stream[..begin])
    ensures Cursor(samples, i', begin + |element|) && dict' == Batch(samples, stream)
  {
    hide Batch, Chunk, SampleOffsets, Taking, Cursor;
    var end := begin + |element|;
    i', dict' := i, dict;
    StartElement(samples, i, begin, stream);
    while i' < |samples| && samples[i'] < end
      invariant Taking(samples, i', begin, stream, dict')
      decreases |samples| - i'
    {
      OffsetsInvariant(samples, i', begin, stream, dict');
      var sampleEnd := samples[i'] + SAMPLE_LEN;
      assert begin < sampleEnd;  // the source's own assertion
      var from := if samples[i'] <= begin then 0 else samples[i'] - begin;
      var len := if sampleEnd <= end then sampleEnd - (begin + from) else end - (begin + from);
      TakeFromElement(samples, i', begin, stream, dict', from, len);
      ghost var before := dict';
      dict' := dict' + element[from..from + len];
      if sampleEnd > end {
        Finished(samples, i', begin, stream, before);
        return;
      }
      NextSample(samples, i', begin, stream, before);
      i' := i' + 1;
    }
    Exhausted(samples, i', begin, stream, dict');
  }

  lemma OffsetsInvariant(samples: seq<nat>, i: nat, begin: nat, stream: string, dict: string)
    requires begin <= |stream| && Taking(samples, i, begin, stream, dict) && i < |samples|
    ensures begin < samples[i] + SAMPLE_LEN
  {
  }

  lemma NextSample(samples: seq<nat>, i: nat, begin: nat, stream: string, dict: string)
    requires SampleOffsets(samples) && begin <= |stream| && Taking(samples, i, begin, stream, dict)
    requires i < |samples| && samples[i] + SAMPLE_LEN <= |stream|
    ensures Taking(samples, i + 1, begin, stream, Batch(samples[..i + 1], stream))
  {
    hide Batch, Chunk;
    if i + 1 < |samples| {
      SamplesApart(samples, i, i + 1);
      EmptyChunk(samples[i + 1], stream[..begin]);
    }
    hide SampleOffsets;
  }

  lemma Slice(stream: string, begin: nat, from: nat, to: nat)
    requires begin <= |stream| && from <= to <= |stream| - begin
    ensures stream[begin..][from..to] == stream[begin + from..begin + to]
  {
  }

  lemma EmptyChunk(b: nat, stream: string)
    requires b >= |stream|
    ensures Chunk(b, stream) == ""
  {
  }

  /** Whatever the lengths of the elements, the streamed dictionary is the concatenation, in offset
      order, of the available bytes of every sample of the whole stream. */
  method SampleStream(elements: seq<string>, samples: seq<nat>) returns (dict: string)
    requires SampleOffsets(samples)
    ensures dict == Batch(samples, Flatten(elements))
  {
    dict := "";
    var i, begin := 0, 0;
    BatchUnfinished(samples, 0, "");
    for n := 0 to |elements|
      invariant begin == |Flatten(elements[..n])| && Cursor(samples, i, begin)
      invariant dict == Batch(samples, Flatten(elements[..n]))
    {
      ghost var stream := Flatten(elements[..n + 1]);
      assert elements[..n + 1][..n] == elements[..n];
      assert stream[..begin] == Flatten(elements[..n]);
      i, dict := AddElement(samples, i, begin, elements[n], dict, stream);
      begin := begin + |elements[n]|;
    }
    assert elements[..|elements|] == elements;
  }
}
