/**
 The S/PDIF encoder: a half-block buffer filled sample by sample and pushed to DMA.
 The stream it emits is a function of the concatenated PCM alone, is a legal
 biphase-mark waveform outside preambles, and decodes to the samples sent.
 */
module SpdifStream {
  import opened Words
  import opened SpdifCode

  const HALF_BLOCK_WORDS := 384
  const HALF_BLOCK_SAMPLES := 192
  const BLOCK_SUBFRAMES := 384

  // ----- the stream as a function of the samples -----

  /** One data word for each pair of PCM bytes. */
  function DataWords(pcm: seq<bv8>): (r: seq<bv32>)
    requires |pcm| % 2 == 0
    ensures |r| == |pcm| / 2
  {
    seq(|pcm| / 2, k requires 0 <= k < |pcm| / 2 => DataWord(pcm[2 * k], pcm[2 * k + 1]))
  }

  function Preamble(subframe: nat): bv32 {
    if subframe % BLOCK_SUBFRAMES == 0 then BMC_B else if subframe % 2 == 0 then BMC_M else BMC_W
  }

  /** A preamble word before every data word. */
  function Stream(data: seq<bv32>): seq<bv32> {
    seq(2 * |data|, m requires 0 <= m < 2 * |data| => if m % 2 == 0 then Preamble(m / 2) else data[m / 2])
  }

  function WholeHalfBlocks(samples: nat): nat { samples / HALF_BLOCK_SAMPLES * HALF_BLOCK_SAMPLES }

  /** What has been handed to DMA once data has been written: every completed half block. */
  function Emitted(data: seq<bv32>): seq<bv32> {
    Stream(data[..WholeHalfBlocks(|data|)])
  }

  lemma DataWordsAppend(a: seq<bv8>, b: seq<bv8>)
    requires |a| % 2 == 0 && |b| % 2 == 0
    ensures DataWords(a + b) == DataWords(a) + DataWords(b)
  {
    hide DataWords, DataWord, BmcTab;
    forall k | 0 <= k < |a + b| / 2 ensures DataWords(a + b)[k] == (DataWords(a) + DataWords(b))[k] {
      DataWordAt(a + b, k);
      if k < |a| / 2 {
        DataWordAt(a, k);
      } else {
        DataWordAt(b, k - |a| / 2);
      }
    }
  }

  lemma DataWordAt(pcm: seq<bv8>, k: nat)
    requires |pcm| % 2 == 0 && k < |pcm| / 2
    ensures DataWords(pcm)[k] == DataWord(pcm[2 * k], pcm[2 * k + 1])
  {
    hide DataWord, BmcTab;
  }

  lemma StreamAppend(a: seq<bv32>, b: seq<bv32>)
    ensures Stream(a) <= Stream(a + b)
  {
    forall m | 0 <= m < 2 * |a| ensures Stream(a)[m] == Stream(a + b)[m] {
      if m % 2 == 1 { assert (a + b)[m / 2] == a[m / 2]; }
    }
  }

  /** Writing more only appends to what was sent, by whole half blocks. */
  lemma EmittedGrows(a: seq<bv32>, b: seq<bv32>)
    ensures Emitted(a) <= Emitted(a + b)
    ensures |Emitted(a)| <= 2 * |a| < |Emitted(a)| + HALF_BLOCK_WORDS
    ensures |Emitted(a)| % HALF_BLOCK_WORDS == 0
  {
    var n, m := WholeHalfBlocks(|a|), WholeHalfBlocks(|a + b|);
    assert |a| / HALF_BLOCK_SAMPLES <= |a + b| / HALF_BLOCK_SAMPLES;
    assert (a + b)[..m] == a[..n] + (a + b)[n..m];
    StreamAppend(a[..n], (a + b)[n..m]);
  }

  /** Preamble B marks exactly the first sub-frame of each 192-frame block; otherwise M is left and W is right. */
  lemma PreambleSchedule(data: seq<bv32>, k: nat)
    requires k < |data|
    ensures Stream(data)[2 * k] == BMC_B <==> k % (2 * 192) == 0
    ensures Stream(data)[2 * k] == BMC_M <==> k % 2 == 0 && k % (2 * 192) != 0
    ensures Stream(data)[2 * k] == BMC_W <==> k % 2 == 1
  {
    assert BMC_B != BMC_M && BMC_M != BMC_W && BMC_B != BMC_W;
    assert k == 384 * (k / 384) + k % 384;
  }

  lemma SubframeInBlock(b: nat, j: nat)
    requires j < HALF_BLOCK_SAMPLES
    ensures Preamble(HALF_BLOCK_SAMPLES * b + j)
         == if j == 0 then (if b % 2 == 0 then BMC_B else BMC_M) else if j % 2 == 0 then BMC_M else BMC_W
  {
    var k, r := 192 * b + j, if b % 2 == 0 then j else 192 + j;
    assert b == 2 * (b / 2) + b % 2;
    UniqueRemainder(k, 384, b / 2, r);
    UniqueRemainder(k, 2, 96 * b + j / 2, j % 2);
  }

  // ----- the encode buffer -----

  class SpdifEncoder {
    const buf: array<bv32>
    var ptr: nat
    /** Data words written since the last init or flush. */
    ghost var data: seq<bv32>
    /** Words handed to DMA since the last init or flush. */
    ghost var sent: seq<bv32>

    /** Half blocks pushed since then. */
    ghost var blocks: nat

    ghost predicate Valid()
      reads this, buf
    {
      && buf.Length == HALF_BLOCK_WORDS
      && ptr % 2 == 0 && ptr < HALF_BLOCK_WORDS
      && |data| == HALF_BLOCK_SAMPLES * blocks + ptr / 2
      && sent == Stream(data[..HALF_BLOCK_SAMPLES * blocks])
      && PreamblesReady()
      && (forall i :: 0 <= i < ptr / 2 ==> buf[2 * i + 1] == data[HALF_BLOCK_SAMPLES * blocks + i])
    }

    /** The even words hold preambles; the first is still to be toggled before it goes out. */
    ghost predicate PreamblesReady()
      requires buf.Length == HALF_BLOCK_WORDS
      reads this, buf
    {
      && buf[0] == (if blocks % 2 == 0 then BMC_M else BMC_B)
      && (forall i :: 0 < i < HALF_BLOCK_SAMPLES ==> buf[2 * i] == if i % 2 == 0 then BMC_M else BMC_W)
    }

    constructor ()
      ensures Valid() && fresh(buf) && data == [] && sent == []
    {
      buf := new bv32[HALF_BLOCK_WORDS];
      ptr, data, sent, blocks := 0, [], [], 0;
      new;
      FillPreambles();
    }

    method FillPreambles()
      requires buf.Length == HALF_BLOCK_WORDS && blocks == 0
      modifies buf
      ensures PreamblesReady()
    {
      var mw, i := BMC_W, 0;
      while i < HALF_BLOCK_WORDS
        invariant 0 <= i <= HALF_BLOCK_WORDS && i % 2 == 0
        invariant mw == if i % 4 == 0 then BMC_W else BMC_M
        invariant forall j :: 0 <= j < i / 2 ==> buf[2 * j] == if j % 2 == 0 then BMC_M else BMC_W
      {
        mw := mw ^ BMC_MW_DIF;
        buf[i] := mw;
        i := i + 2;
      }
      assert buf[2 * 0] == BMC_M;
    }

    /** The flush of the playback task: stale data words stay behind but are never sent. */
    method Flush()
      requires Valid()
      modifies this, buf
      ensures Valid() && data == [] && sent == []
    {
      ptr, data, sent, blocks := 0, [], [], 0;
      FillPreambles();
    }

    /** A completed half block is toggled and pushed to DMA. */
    method PushHalfBlock()
      requires buf.Length == HALF_BLOCK_WORDS == ptr && |data| == HALF_BLOCK_SAMPLES * (blocks + 1)
      requires sent == Stream(data[..HALF_BLOCK_SAMPLES * blocks]) && PreamblesReady()
      requires forall i :: 0 <= i < HALF_BLOCK_SAMPLES ==> buf[2 * i + 1] == data[HALF_BLOCK_SAMPLES * blocks + i]
      modifies this, buf
      ensures Valid() && data == old(data) && blocks == old(blocks) + 1
      ensures sent == old(sent) + buf[..]
    {
      buf[0] := buf[0] ^ (SYNC_FLIP << 16);
      HalfBlockIsStream(buf[..], data, blocks);
      sent, blocks := sent + buf[..], blocks + 1;
      assert data[..|data|] == data;
      ptr := 0;
    }

    /** One data word. */
    method Put(word: bv32)
      requires Valid()
      modifies this, buf
      ensures Valid() && data == old(data) + [word]
      ensures old(sent) <= sent
    {
      assert data[..HALF_BLOCK_SAMPLES * blocks] == (data + [word])[..HALF_BLOCK_SAMPLES * blocks];
      buf[ptr + 1] := word;
      data := data + [word];
      ptr := ptr + 2;
      if ptr >= HALF_BLOCK_WORDS {
        PushHalfBlock();
      }
    }

    /** Everything written is encoded: the state afterwards depends only on the PCM so far. */
    method Write(src: seq<bv8>)
      requires Valid() && |src| % 2 == 0
      modifies this, buf
      ensures Valid() && data == old(data) + DataWords(src)
      ensures sent == Emitted(data) && old(sent) <= sent
    {
      hide BmcTab, DataWord, Stream, Emitted, WholeHalfBlocks, DataWords;
      var p := 0;
      assert DataWords(src[..p]) == [];
      while p < |src|
        invariant 0 <= p <= |src| && p % 2 == 0
        invariant Valid() && data == old(data) + DataWords(src[..p])
        invariant old(sent) <= sent
      {
        Put(DataWord(src[p], src[p + 1]));
        OneMoreWord(src, p);
        p := p + 2;
      }
      assert src[..p] == src;
      SentIsEmitted();
    }

    lemma SentIsEmitted()
      requires Valid()
      ensures sent == Emitted(data)
    {
      BlocksAreWhole(|data|, blocks);
    }

    /**
     What has been sent since the last init or flush: preamble B before exactly the first
     sub-frame of each 192-frame block, otherwise M before left and W before right, each
     followed by its data word.
     */
    lemma SentSchedule(k: nat)
      requires Valid() && 2 * k < |sent|
      ensures 2 * k + 1 < |sent| && k < |data| && sent[2 * k + 1] == data[k]
      ensures sent[2 * k] == BMC_B <==> k % (2 * 192) == 0
      ensures sent[2 * k] == BMC_M <==> k % 2 == 0 && k % (2 * 192) != 0
      ensures sent[2 * k] == BMC_W <==> k % 2 == 1
    {
      PreambleSchedule(data[..HALF_BLOCK_SAMPLES * blocks], k);
    }
  }

  lemma BlocksAreWhole(samples: nat, blocks: nat)
    requires HALF_BLOCK_SAMPLES * blocks <= samples < HALF_BLOCK_SAMPLES * (blocks + 1)
    ensures WholeHalfBlocks(samples) == HALF_BLOCK_SAMPLES * blocks
  {
  }

  lemma OneMoreWord(src: seq<bv8>, p: nat)
    requires p % 2 == 0 && p + 2 <= |src|
    ensures DataWords(src[..p + 2]) == DataWords(src[..p]) + [DataWord(src[p], src[p + 1])]
  {
    hide BmcTab, DataWord, DataWords;
    DataWordsAppend(src[..p], src[p..p + 2]);
    DataWordAt(src[p..p + 2], 0);
    assert src[..p + 2] == src[..p] + src[p..p + 2];
  }

  /** A full, toggled buffer is the next half block of the stream. */
  lemma HalfBlockIsStream(buf: seq<bv32>, data: seq<bv32>, b: nat)
    requires |buf| == HALF_BLOCK_WORDS && |data| == HALF_BLOCK_SAMPLES * (b + 1)
    requires buf[0] == if b % 2 == 0 then BMC_B else BMC_M
    requires forall i :: 0 < i < HALF_BLOCK_SAMPLES ==> buf[2 * i] == if i % 2 == 0 then BMC_M else BMC_W
    requires forall i :: 0 <= i < HALF_BLOCK_SAMPLES ==> buf[2 * i + 1] == data[HALF_BLOCK_SAMPLES * b + i]
    ensures Stream(data[..HALF_BLOCK_SAMPLES * b]) + buf == Stream(data)
  {
    var n := HALF_BLOCK_SAMPLES * b;
    assert data == data[..n] + data[n..];
    StreamAppend(data[..n], data[n..]);
    forall m | 0 <= m < HALF_BLOCK_WORDS ensures Stream(data)[2 * n + m] == buf[m] {
      SubframeInBlock(b, m / 2);
      assert (2 * n + m) / 2 == n + m / 2;
      assert buf[m] == if m % 2 == 0 then buf[2 * (m / 2)] else buf[2 * (m / 2) + 1];
    }
  }
}
