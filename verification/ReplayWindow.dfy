/** transport/session/session.go: the UDP replay window.

    The window is a bitmap of 16 words of 64 bits; bit `d` stands for the sequence number `d`
    below the highest one seen. It is proved against the set of all numbers ever marked. */
module ReplayWindow {
  import opened Bytes
  import opened Words

  const WINDOW_SIZE: nat := 1024
  const WINDOW_WORDS: nat := 16

  /** The reference the bitmap must agree with: every number marked, and the largest of them. */
  datatype Marks = Marks(highest: u64, all: set<u64>) {
    ghost predicate Valid() {
      if all == {} then highest == 0
      else highest in all && forall q | q in all :: q <= highest
    }

    /** Anti-replay acceptance: fresh window, newer than everything, or recent and unmarked. */
    predicate Accepts(sequence: u64) {
      all == {} || sequence > highest || (highest - sequence < WINDOW_SIZE && sequence !in all)
    }

    function Add(sequence: u64): (m: Marks) {
      Marks(if all == {} || sequence > highest then sequence else highest, all + {sequence})
    }
  }

  const NO_MARKS := Marks(0, {})

  /** The marks left by a whole run of accepted numbers, oldest first. */
  function MarkAll(run: seq<u64>): Marks {
    if run == [] then NO_MARKS else MarkAll(run[..|run| - 1]).Add(run[|run| - 1])
  }

  /** After any run, a number is accepted exactly when it is newer than all of the run, or
      less than 1024 behind the largest and not in the run. */
  lemma {:induction false} AcceptsAfterRun(run: seq<u64>, sequence: u64)
    ensures var m := MarkAll(run);
            && m.Valid()
            && (forall q | q in run :: q <= m.highest)
            && (run != [] ==> m.highest in run)
            && (m.Accepts(sequence) <==>
                  || (forall q | q in run :: q < sequence)
                  || (sequence !in run && m.highest - sequence < 1024))
  {
    MarksAreTheRun(run);
    forall q | q in run
      ensures q in MarkAll(run).all
    {}
  }

  lemma {:induction false} MarksAreTheRun(run: seq<u64>)
    ensures MarkAll(run).Valid()
    ensures MarkAll(run).all == set q | q in run
  {
    if run != [] {
      MarksAreTheRun(run[..|run| - 1]);
      assert run == run[..|run| - 1] + [run[|run| - 1]];
    }
  }

  /** Go's conversion int(x) of a uint64 on a 64-bit platform. */
  function ToInt(x: u64): int {
    if x < TWO_63 then x else x - TWO_64
  }

  /** Outcome of a candidate check. `Panic` is the runtime fault of a negative bit index. */
  datatype Verdict = Fresh | OutsideWindow | Duplicate | Panic

  predicate BitAt(bits: seq<Word>, d: nat)
    requires |bits| == WINDOW_WORDS && d < WINDOW_SIZE
  {
    Bit(bits[d / 64], d % 64)
  }

  /** The bitmap shows, for each of the last 1024 numbers, whether it was marked. */
  ghost predicate Shows(bits: seq<Word>, m: Marks) {
    |bits| == WINDOW_WORDS
    && forall d | 0 <= d < WINDOW_SIZE :: BitAt(bits, d) <==> m.highest - d in m.all
  }

  /** Bit `d` moves to bit `d + shift`; what is shifted in is clear. */
  ghost predicate ShiftedBy(before: seq<Word>, shift: nat, after: seq<Word>) {
    |before| == WINDOW_WORDS && |after| == WINDOW_WORDS
    && forall d | 0 <= d < WINDOW_SIZE ::
         BitAt(after, d) <==> d >= shift && BitAt(before, d - shift)
  }

  ghost predicate WithBit(before: seq<Word>, bitIndex: nat, after: seq<Word>) {
    |before| == WINDOW_WORDS && |after| == WINDOW_WORDS
    && forall d | 0 <= d < WINDOW_SIZE ::
         BitAt(after, d) <==> d == bitIndex || BitAt(before, d)
  }

  /** Shifting by the distance to a newer number and setting bit 0 shows that number too. */
  lemma ShowsNewer(before: seq<Word>, shifted: seq<Word>, after: seq<Word>, m: Marks, sequence: u64)
    requires m.Valid() && m.all != {} && Shows(before, m) && sequence > m.highest
    requires ShiftedBy(before, sequence - m.highest, shifted) && WithBit(shifted, 0, after)
    ensures Shows(after, m.Add(sequence))
  {
    var shift := sequence - m.highest;
    forall d | 0 <= d < WINDOW_SIZE
      ensures BitAt(after, d) <==> sequence - d in m.all + {sequence}
    {
      assert BitAt(after, d) <==> d == 0 || BitAt(shifted, d);
      if d >= shift {
        assert m.highest - (d - shift) == sequence - d;
      }
    }
  }

  /** Setting the bit of an older number shows that number too. */
  lemma ShowsOlder(before: seq<Word>, after: seq<Word>, m: Marks, sequence: u64)
    requires m.Valid() && m.all != {} && Shows(before, m) && sequence <= m.highest
    requires if m.highest - sequence < WINDOW_SIZE then WithBit(before, m.highest - sequence, after)
             else after == before
    ensures Shows(after, m.Add(sequence))
  {}

  /** Destination word `k` holds the bits that the shift brings into it. */
  ghost predicate WordShifted(before: seq<Word>, shift: nat, k: nat, value: Word)
    requires |before| == WINDOW_WORDS && k < WINDOW_WORDS
  {
    forall i | 0 <= i < 64 ::
      Bit(value, i) <==> 64 * k + i >= shift && BitAt(before, 64 * k + i - shift)
  }

  /** The word and carry arithmetic of one destination word, bit for bit. */
  lemma ShiftsWord(bits: seq<Word>, shift: nat, dst: nat, value: Word)
    requires |bits| == WINDOW_WORDS && dst < WINDOW_WORDS && shift / 64 <= dst
    requires var src, s := dst - shift / 64, shift % 64;
             value == if s != 0 && src > 0 then Or(Shl(bits[src], s), Shr(bits[src - 1], 64 - s))
                      else Shl(bits[src], s)
    ensures WordShifted(bits, shift, dst, value)
  {
    var src, s := dst - shift / 64, shift % 64;
    forall i | 0 <= i < 64
      ensures Bit(value, i) <==> 64 * dst + i >= shift && BitAt(bits, 64 * dst + i - shift)
    {
      if s != 0 && src > 0 {
        CarriesBit(bits[src], bits[src - 1], s, i);
      } else {
        BitOfShl(bits[src], s, i);
      }
      if i >= s {
        assert (64 * dst + i - shift) / 64 == src && (64 * dst + i - shift) % 64 == i - s;
      } else if src > 0 {
        assert (64 * dst + i - shift) / 64 == src - 1 && (64 * dst + i - shift) % 64 == 64 + i - s;
      }
    }
  }

  lemma ShiftsEmptyWord(bits: seq<Word>, shift: nat, dst: nat)
    requires |bits| == WINDOW_WORDS && dst < WINDOW_WORDS && dst < shift / 64
    ensures WordShifted(bits, shift, dst, 0)
  {
    forall i | 0 <= i < 64
      ensures !Bit(0, i)
    {
      BitOfZero(i);
    }
  }

  lemma ShiftsWords(before: seq<Word>, shift: nat, after: seq<Word>)
    requires |before| == WINDOW_WORDS && |after| == WINDOW_WORDS
    requires forall k | 0 <= k < WINDOW_WORDS :: WordShifted(before, shift, k, after[k])
    ensures ShiftedBy(before, shift, after)
  {
    forall d | 0 <= d < WINDOW_SIZE
      ensures BitAt(after, d) <==> d >= shift && BitAt(before, d - shift)
    {
      assert WordShifted(before, shift, d / 64, after[d / 64]);
      assert 64 * (d / 64) + d % 64 == d;
    }
  }

  class UdpReplayWindow {
    var initialized: bool
    var highestSeen: u64
    var bits: array<Word>
    ghost var marks: Marks

    ghost predicate Valid()
      reads this, bits
    {
      && bits.Length == WINDOW_WORDS
      && marks.Valid()
      && (initialized <==> marks.all != {})
      && (initialized ==> highestSeen == marks.highest)
      && (initialized ==> Shows(bits[..], marks))
    }

    constructor ()
      ensures Valid() && fresh(bits) && marks == NO_MARKS
    {
      initialized := false;
      highestSeen := 0;
      bits := new Word[WINDOW_WORDS](i => 0);
      marks := NO_MARKS;
    }

    method ValidateCandidate(sequence: u64) returns (v: Verdict)
      requires Valid()
      ensures v == Panic <==> marks.all != {} && marks.highest - sequence >= TWO_63
      ensures v != Panic ==> (v == Fresh <==> marks.Accepts(sequence))
      ensures v == OutsideWindow ==> WINDOW_SIZE <= marks.highest - sequence
      ensures v == Duplicate ==> sequence in marks.all && marks.highest - sequence < WINDOW_SIZE
    {
      if !initialized {
        return Fresh;
      }
      if sequence > highestSeen {
        return Fresh;
      }
      var distance := ToInt(highestSeen - sequence);
      if distance >= WINDOW_SIZE {
        return OutsideWindow;
      }
      if distance < 0 {
        return Panic;
      }
      var seen := Contains(distance);
      assert highestSeen - distance == sequence;
      return if seen then Duplicate else Fresh;
    }

    method MarkSeen(sequence: u64) returns (panicked: bool)
      requires Valid()
      modifies this, bits
      ensures Valid() && (bits == old(bits) || fresh(bits))
      ensures panicked <==> (old(marks).all != {}
                             && (sequence - old(marks).highest >= TWO_63
                                 || old(marks).highest - sequence >= TWO_63))
      ensures marks == if panicked then old(marks) else old(marks).Add(sequence)
    {
      ghost var before := bits[..];
      if !initialized {
        initialized := true;
        highestSeen := sequence;
        Clear();
        Set(0);
        marks := marks.Add(sequence);
        return false;
      }
      if sequence > highestSeen {
        var shift := ToInt(sequence - highestSeen);
        panicked := ShiftWindow(shift);
        if panicked {
          return;
        }
        ghost var shifted := bits[..];
        highestSeen := sequence;
        Set(0);
        ShowsNewer(before, shifted, bits[..], marks, sequence);
        marks := marks.Add(sequence);
        return;
      }
      var distance := ToInt(highestSeen - sequence);
      if distance < WINDOW_SIZE {
        if distance < 0 {
          return true;
        }
        Set(distance);
      }
      ShowsOlder(before, bits[..], marks, sequence);
      marks := marks.Add(sequence);
      return false;
    }

    method Clear()
      requires bits.Length == WINDOW_WORDS
      modifies bits
      ensures forall d | 0 <= d < WINDOW_SIZE :: !BitAt(bits[..], d)
    {
      for i := 0 to WINDOW_WORDS
        invariant forall k | 0 <= k < i :: bits[k] == 0
      {
        bits[i] := 0;
      }
      forall d | 0 <= d < WINDOW_SIZE
        ensures !BitAt(bits[..], d)
      {
        BitOfZero(d % 64);
      }
    }

    method Contains(bitIndex: nat) returns (b: bool)
      requires bits.Length == WINDOW_WORDS && bitIndex < WINDOW_SIZE
      ensures b <==> BitAt(bits[..], bitIndex)
    {
      var word := bitIndex / 64;
      var bit := bitIndex % 64;
      TestsBit(bits[word], bit);
      b := And(bits[word], Shl(1, bit)) != 0;
    }

    method Set(bitIndex: nat)
      requires bits.Length == WINDOW_WORDS && bitIndex < WINDOW_SIZE
      modifies bits
      ensures WithBit(old(bits[..]), bitIndex, bits[..])
    {
      ghost var before := bits[..];
      var word := bitIndex / 64;
      var bit := bitIndex % 64;
      SetsBit(bits[word], bit);
      bits[word] := Or(bits[word], Shl(1, bit));
      forall d | 0 <= d < WINDOW_SIZE
        ensures BitAt(bits[..], d) <==> d == bitIndex || BitAt(before, d)
      {
        if d / 64 == word {
          assert d == bitIndex <==> d % 64 == bit;
        }
      }
    }

    /** The multi-word shift. A negative `shift` faults on the first word it touches. */
    method ShiftWindow(shift: int) returns (panicked: bool)
      requires bits.Length == WINDOW_WORDS
      modifies this`bits, bits
      ensures bits.Length == WINDOW_WORDS && (bits == old(bits) || fresh(bits))
      ensures panicked <==> shift < 0
      ensures panicked ==> bits == old(bits) && bits[..] == old(bits[..])
      ensures !panicked ==> ShiftedBy(old(bits[..]), shift, bits[..])
    {
      if shift >= WINDOW_SIZE {
        Clear();
        return false;
      }
      if shift == 0 {
        return false;
      }
      if shift < 0 {
        return true;
      }
      var wordShift := shift / 64;
      var bitShift := shift % 64;
      var next := new Word[WINDOW_WORDS](i => 0);
      var dst := WINDOW_WORDS - 1;
      while dst >= 0
        modifies next
        invariant -1 <= dst < WINDOW_WORDS
        invariant forall k | 0 <= k <= dst :: next[k] == 0
        invariant forall k | dst < k < WINDOW_WORDS :: WordShifted(bits[..], shift, k, next[k])
      {
        if dst < wordShift {
          ShiftsEmptyWord(bits[..], shift, dst);
          dst := dst - 1;
          continue;
        }
        var src := dst - wordShift;
        var value := Shl(bits[src], bitShift);
        if bitShift != 0 && src > 0 {
          CarriesBit(bits[src], bits[src - 1], bitShift, 0);
          value := Or(value, Shr(bits[src - 1], 64 - bitShift));
        }
        ShiftsWord(bits[..], shift, dst, value);
        next[dst] := value;
        dst := dst - 1;
      }
      ShiftsWords(bits[..], shift, next[..]);
      bits := next;
      return false;
    }
  }

  /** The fault at one input: a window that has seen 2^63 faults on number 0, and one that has
      seen 0 faults on marking 2^63. */
  method FaultsAtGap() returns (checked: Verdict, marked: bool)
    ensures checked == Panic && marked
  {
    var ahead := new UdpReplayWindow();
    var first := ahead.MarkSeen(TWO_63);
    checked := ahead.ValidateCandidate(0);
    var behind := new UdpReplayWindow();
    var second := behind.MarkSeen(0);
    marked := behind.MarkSeen(TWO_63);
  }
}
