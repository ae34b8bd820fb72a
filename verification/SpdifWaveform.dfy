/**
 The emitted words as a line signal. A reference receiver reads each sub-frame from
 its preamble on: eight preamble half cells, then time slots 4 to 31 as cells
 (IEC 60958-1, clauses 4.1 to 4.3). The V, U, C and P slots of a sub-frame are the
 first byte of the following preamble word.
 */
module SpdifWaveform {
  import opened SpdifCode
  import opened SpdifStream

  /** Level of half cell n of the stream of words. */
  predicate Half(words: seq<bv32>, n: nat)
    requires n < 32 * |words|
  {
    Levels(words[n / 32])[n % 32]
  }

  /** Preambles, and only they, are exempt from the biphase rule. */
  predicate InPreamble(n: nat) { 8 <= n % 64 < 16 }

  datatype Subframe = Subframe(preamble: seq<bool>, slots: seq<bool>)

  /** The reference receiver: sub-frame k, complete once the next preamble word has begun. */
  function Receive(words: seq<bv32>, k: nat): Subframe
    requires 2 * k + 2 < |words|
  {
    Subframe(
      seq(8, j requires 0 <= j < 8 => Half(words, 64 * k + 8 + j)),
      seq(28, t requires 0 <= t < 28 => Half(words, 64 * k + 16 + 2 * t) != Half(words, 64 * k + 17 + 2 * t)))
  }

  function PreamblePattern(k: nat): seq<bool> {
    if k % 384 == 0 then [false, false, false, true, false, true, true, true]
    else if k % 2 == 0 then [false, false, false, true, true, true, false, true]
    else [false, false, false, true, true, false, true, true]
  }

  function OddCount(bits: seq<bool>): bool {
    bits != [] && (bits[0] != OddCount(bits[1..]))
  }

  /** The sample, lowest bit first, with its lowest bit chosen to make the number of ones even. */
  function EvenSample(lo: bv8, hi: bv8): seq<bool> {
    var high := seq(15, i requires 0 <= i < 15 => SampleBit(lo, hi, i + 1));
    [OddCount(high)] + high
  }

  const ZEROS_8 := seq(8, _ => false)
  const ZEROS_4 := seq(4, _ => false)

  // ----- words as levels -----

  /** Every word starts low, ends high, and obeys the biphase rule outside a preamble byte. */
  ghost predicate IsLegalWord(s: seq<bool>, preamble: bool) {
    && |s| == 32 && !s[0] && s[31]
    && (forall i :: 1 <= i < 16 && !(preamble && 4 <= i < 8) ==> s[2 * i] != s[2 * i - 1])
  }

  lemma PreambleLevels(w: bv32)
    requires w == BMC_B || w == BMC_M || w == BMC_W
    ensures var s := Levels(w);
      && IsLegalWord(s, true)
      && (forall i :: 0 <= i < 4 || 8 <= i < 16 ==> s[2 * i] == s[2 * i + 1])
      && s[8..16] == [false, false, false, true] + (if w == BMC_B then [false, true, true, true]
                                                    else if w == BMC_M then [true, true, false, true]
                                                    else [true, false, true, true])
  {
  }

  lemma WordIsLegal(pcm: seq<bv8>, m: nat)
    requires |pcm| % 2 == 0 && m < |pcm|
    ensures IsLegalWord(Levels(Stream(DataWords(pcm))[m]), m % 2 == 0)
  {
    hide BmcTab, DataWord, Levels, Level;
    if m % 2 == 0 {
      PreambleLevels(Preamble(m / 2));
    } else {
      WordBits(pcm[m - 1], pcm[m]);
      CodedWordLevels(DataWord(pcm[m - 1], pcm[m]));
    }
  }

  lemma HalfAt(words: seq<bv32>, m: nat, j: nat)
    requires m < |words| && j < 32
    ensures Half(words, 32 * m + j) == Levels(words[m])[j]
  {
    hide Levels;
    assert (32 * m + j) / 32 == m && (32 * m + j) % 32 == j;
  }

  lemma PreamblePlace(m: nat, j: nat)
    requires j < 32
    ensures InPreamble(32 * m + j) <==> m % 2 == 0 && 8 <= j < 16
  {
    assert 32 * m + j == 64 * (m / 2) + 32 * (m % 2) + j;
  }

  lemma TransitionInWord(pcm: seq<bv8>, m: nat, j: nat)
    requires |pcm| % 2 == 0 && m < |pcm| && 0 < j < 32 && j % 2 == 0 && !(m % 2 == 0 && 8 <= j < 16)
    ensures |Stream(DataWords(pcm))| == |pcm|
      && Half(Stream(DataWords(pcm)), 32 * m + j) != Half(Stream(DataWords(pcm)), 32 * m + (j - 1))
  {
    hide BmcTab, Levels, Half, Stream, DataWords;
    StreamLength(pcm);
    WordIsLegal(pcm, m);
    HalfAt(Stream(DataWords(pcm)), m, j);
    HalfAt(Stream(DataWords(pcm)), m, j - 1);
    assert j == 2 * (j / 2);
  }

  lemma TransitionBetweenWords(pcm: seq<bv8>, m: nat)
    requires |pcm| % 2 == 0 && 0 < m < |pcm|
    ensures |Stream(DataWords(pcm))| == |pcm|
      && Half(Stream(DataWords(pcm)), 32 * m + 0) != Half(Stream(DataWords(pcm)), 32 * (m - 1) + 31)
  {
    hide BmcTab, Levels, Half, Stream, DataWords;
    StreamLength(pcm);
    WordIsLegal(pcm, m - 1);
    WordIsLegal(pcm, m);
    HalfAt(Stream(DataWords(pcm)), m, 0);
    HalfAt(Stream(DataWords(pcm)), m - 1, 31);
  }

  lemma SplitIndex(n: nat, words: nat) returns (m: nat, j: nat)
    requires 0 < n < 32 * words && n % 2 == 0
    ensures n == 32 * m + j && j < 32 && j % 2 == 0 && m < words && (j == 0 ==> 0 < m)
  {
    m, j := n / 32, n % 32;
    var half := n / 2;
    assert n == 2 * half && n == 32 * m + j;
    assert j == 2 * (half - 16 * m);
  }

  /** Outside preambles the whole stream has a transition at every cell boundary. */
  lemma WaveformIsBiphase(pcm: seq<bv8>, n: nat)
    requires |pcm| % 2 == 0 && 0 < n < 32 * |pcm| && n % 2 == 0 && !InPreamble(n)
    ensures |Stream(DataWords(pcm))| == |pcm| && Half(Stream(DataWords(pcm)), n) != Half(Stream(DataWords(pcm)), n - 1)
  {
    hide Half, Stream, DataWords, InPreamble;
    var m, j := SplitIndex(n, |pcm|);
    PreamblePlace(m, j);
    if j == 0 {
      TransitionBetweenWords(pcm, m);
    } else {
      TransitionInWord(pcm, m, j);
    }
  }

  lemma StreamLength(pcm: seq<bv8>)
    requires |pcm| % 2 == 0
    ensures |Stream(DataWords(pcm))| == |pcm|
  {
    hide BmcTab;
  }

  // ----- the receiver recovers the samples -----

  lemma PreambleWordReceived(words: seq<bv32>, k: nat, w: bv32)
    requires 2 * k + 2 < |words| && words[2 * k] == w && (w == BMC_B || w == BMC_M || w == BMC_W)
    ensures Receive(words, k).preamble == Levels(w)[8..16]
    ensures Receive(words, k).slots[..8] == ZEROS_8
  {
    hide Levels, Half;
    PreambleLevels(w);
    var s := Levels(w);
    forall j | 0 <= j < 8 ensures Receive(words, k).preamble[j] == s[8 + j] {
      HalfAt(words, 2 * k, 8 + j);
    }
    forall t | 0 <= t < 8 ensures !Receive(words, k).slots[t] {
      HalfAt(words, 2 * k, 16 + 2 * t);
      HalfAt(words, 2 * k, 17 + 2 * t);
      assert s[2 * (8 + t)] == s[2 * (8 + t) + 1];
    }
  }

  lemma DataWordReceived(words: seq<bv32>, k: nat, i: nat)
    requires 2 * k + 2 < |words| && i < 16
    ensures var s := Levels(words[2 * k + 1]);
      Receive(words, k).slots[8 + i] == (s[2 * i] != s[2 * i + 1])
  {
    hide Levels, Half;
    HalfAt(words, 2 * k + 1, 2 * i);
    HalfAt(words, 2 * k + 1, 2 * i + 1);
  }

  lemma StatusSlotsReceived(words: seq<bv32>, k: nat, w: bv32)
    requires 2 * k + 2 < |words| && words[2 * k + 2] == w && (w == BMC_B || w == BMC_M || w == BMC_W)
    ensures Receive(words, k).slots[24..] == ZEROS_4
  {
    hide Levels, Half;
    PreambleLevels(w);
    var s := Levels(w);
    var last := Receive(words, k).slots[24..];
    forall t | 0 <= t < 4 ensures !last[t] {
      HalfAt(words, 2 * k + 2, 2 * t);
      HalfAt(words, 2 * k + 2, 2 * t + 1);
      assert s[2 * t] == s[2 * t + 1];
    }
  }

  /** The cells of a word, in order. */
  function Cells(s: seq<bool>): seq<bool>
    requires |s| == 32
  {
    seq(16, i requires 0 <= i < 16 => s[2 * i] != s[2 * i + 1])
  }

  lemma {:induction false} OddOnesIsOddCount(s: seq<bool>, n: nat)
    requires |s| == 32 && n <= 16
    ensures OddOnes(s, n) == OddCount(Cells(s)[..n])
  {
    if n > 0 {
      OddOnesIsOddCount(s, n - 1);
      OddCountLast(Cells(s)[..n]);
      assert Cells(s)[..n][..n - 1] == Cells(s)[..n - 1];
    }
  }

  lemma {:induction false} OddCountLast(bits: seq<bool>)
    requires bits != []
    ensures OddCount(bits) == (bits[|bits| - 1] != OddCount(bits[..|bits| - 1]))
    decreases |bits|
  {
    if |bits| > 1 {
      OddCountLast(bits[1..]);
      assert bits[1..][..|bits| - 2] == bits[..|bits| - 1][1..];
    }
  }

  lemma CellOfLevels(w: bv32, i: nat)
    requires i < 16
    ensures Cells(Levels(w))[i] == Cell(w, i)
  {
    hide Level;
  }

  lemma DataCells(lo: bv8, hi: bv8)
    ensures Cells(Levels(DataWord(lo, hi))) == EvenSample(lo, hi)
  {
    hide BmcTab, DataWord, SampleBit, Levels, Level, Cell, OddOnes;
    var w := DataWord(lo, hi);
    var cells := Cells(Levels(w));
    OnesAreEven(lo, hi);
    OddOnesIsOddCount(Levels(w), 16);
    assert cells[..16] == cells;
    forall i | 1 <= i < 16 ensures cells[i] == SampleBit(lo, hi, i) {
      CellOfLevels(w, i);
      CellsAreSampleBits(lo, hi, i);
    }
    var high := seq(15, i requires 0 <= i < 15 => SampleBit(lo, hi, i + 1));
    assert cells[1..] == high;
    assert cells == [OddCount(high)] + high;
  }

  lemma StreamWords(pcm: seq<bv8>, k: nat)
    requires |pcm| % 2 == 0 && 2 * k + 2 < |pcm|
    ensures var words := Stream(DataWords(pcm));
      && |words| == |pcm|
      && words[2 * k] == Preamble(k)
      && words[2 * k + 1] == DataWord(pcm[2 * k], pcm[2 * k + 1])
      && words[2 * k + 2] == Preamble(k + 1)
  {
    hide BmcTab, DataWord;
  }

  lemma PreambleReceived(words: seq<bv32>, k: nat)
    requires 2 * k + 2 < |words| && words[2 * k] == Preamble(k)
    ensures Receive(words, k).preamble == PreamblePattern(k)
    ensures Receive(words, k).slots[..8] == ZEROS_8
  {
    hide Levels, Half, Receive;
    PreambleWordReceived(words, k, Preamble(k));
    PreambleLevels(Preamble(k));
  }

  lemma AudioReceived(words: seq<bv32>, k: nat, lo: bv8, hi: bv8)
    requires 2 * k + 2 < |words| && words[2 * k + 1] == DataWord(lo, hi)
    ensures Receive(words, k).slots[8..24] == EvenSample(lo, hi)
  {
    hide BmcTab, Levels, DataWord, EvenSample, Half;
    DataCells(lo, hi);
    var audio := Receive(words, k).slots[8..24];
    forall i | 0 <= i < 16 ensures audio[i] == EvenSample(lo, hi)[i] {
      DataWordReceived(words, k, i);
    }
  }

  /** Every complete sub-frame decodes to its preamble, eight zeros, the sample, and V, U, C and P at zero. */
  lemma StreamDecodes(pcm: seq<bv8>, k: nat)
    requires |pcm| % 2 == 0 && 2 * k + 2 < |pcm|
    ensures |Stream(DataWords(pcm))| == |pcm|
    ensures Receive(Stream(DataWords(pcm)), k)
         == Subframe(PreamblePattern(k), ZEROS_8 + EvenSample(pcm[2 * k], pcm[2 * k + 1]) + ZEROS_4)
  {
    hide BmcTab, DataWord, EvenSample, Half, Stream, DataWords, Preamble, PreamblePattern, Levels;
    var words := Stream(DataWords(pcm));
    StreamWords(pcm, k);
    PreambleReceived(words, k);
    AudioReceived(words, k, pcm[2 * k], pcm[2 * k + 1]);
    PreambleIsOne(k + 1);
    StatusSlotsReceived(words, k, Preamble(k + 1));
    var slots := Receive(words, k).slots;
    assert slots == slots[..8] + slots[8..24] + slots[24..];
  }

  lemma PreambleIsOne(k: nat)
    ensures Preamble(k) == BMC_B || Preamble(k) == BMC_M || Preamble(k) == BMC_W
  {
  }

  lemma {:induction false} OddCountSplits(a: seq<bool>, b: seq<bool>)
    ensures OddCount(a + b) == (OddCount(a) != OddCount(b))
    decreases |a|
  {
    if a == [] {
      assert a + b == b;
    } else {
      assert (a + b)[1..] == a[1..] + b;
      OddCountSplits(a[1..], b);
    }
  }

  lemma {:induction false} NoOnes(bits: seq<bool>)
    requires forall i :: 0 <= i < |bits| ==> !bits[i]
    ensures !OddCount(bits)
    decreases |bits|
  {
    if bits != [] { NoOnes(bits[1..]); }
  }

  /** Slots 4 to 31 of every sub-frame hold an even number of ones, as the parity slot requires. */
  lemma SubframeParity(lo: bv8, hi: bv8)
    ensures !OddCount(ZEROS_8 + EvenSample(lo, hi) + ZEROS_4)
  {
    hide SampleBit;
    NoOnes(ZEROS_8);
    NoOnes(ZEROS_4);
    OddCountSplits(ZEROS_8 + EvenSample(lo, hi), ZEROS_4);
    OddCountSplits(ZEROS_8, EvenSample(lo, hi));
    assert EvenSample(lo, hi)[1..] == seq(15, i requires 0 <= i < 15 => SampleBit(lo, hi, i + 1));
  }
}
