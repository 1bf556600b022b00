/** client: count datagrams up to a maximum, stopping at the first gap (or, with -G,
    resynchronising), on a 32-bit counter against 64-bit sequence numbers. */
module Client {
  import opened Word64
  import opened Bytes
  import opened Sockets

  const READ_BUF: nat := 65536

  datatype Exit = CountReached | SeqError | ReadError | StillWaiting

  // ---------------------------------------------------------------- on sequence numbers

  /** The counter after a number has been accepted: its successor on 32 bits. */
  function Next(seqNum: Word): Word32 {
    Wrap32(seqNum as int + 1)
  }

  lemma NextBySteps(counter: Word32, seqNum: Word)
    ensures Wrap32(Wrap32(seqNum) as int + 1) == Next(seqNum)
    ensures counter == seqNum ==> Wrap32(counter as int + 1) == Next(seqNum)
  {
    var k := Wrap32Quotient(seqNum);
    Wrap32Period(seqNum as int + 1, Wrap32(seqNum) as int + 1, k);
  }

  /** How the loop ends on these sequence numbers, and how many of them it takes. */
  function Follow(max: Word, ignore: bool, counter: Word32, nums: seq<Word>): (r: (Exit, nat))
    ensures r.1 <= |nums|
    decreases nums
  {
    if counter == max then (CountReached, 0)
    else if nums == [] then (StillWaiting, 0)
    else if counter != nums[0] && !ignore then (SeqError, 1)
    else
      var (e, k) := Follow(max, ignore, Next(nums[0]), nums[1..]);
      (e, k + 1)
  }

  lemma {:induction false} StrictFrom(max: Word, counter: Word32, nums: seq<Word>)
    requires counter <= max
    ensures var (e, k) := Follow(max, false, counter, nums);
            && (e == CountReached <==>
                max < TWO32 && |nums| >= max - counter && forall i :: 0 <= i < max - counter ==> nums[i] == counter + i)
            && (e == CountReached ==> k == max - counter)
    decreases nums
  {
    if counter != max && nums != [] && nums[0] == counter {
      var rest := nums[1..];
      if counter + 1 < TWO32 {
        StrictFrom(max, counter + 1, rest);
        assert forall i :: 1 <= i < |nums| ==> nums[i] == rest[i - 1];
      } else {
        LargeMaximumUnreachable(max, 0, rest);
      }
    }
  }

  /** A maximum of 2^32 or more is out of reach of the 32-bit counter, in either mode. */
  lemma {:induction false} LargeMaximumUnreachable(max: Word, counter: Word32, nums: seq<Word>)
    ensures max >= TWO32 ==> forall ignore :: Follow(max, ignore, counter, nums).0 != CountReached
    decreases nums
  {
    if nums != [] {
      LargeMaximumUnreachable(max, Next(nums[0]), nums[1..]);
    }
  }

  /** Strict mode: the count is reached if and only if the maximum fits the counter and the
      first `max` datagrams carry 0, 1, ..., max - 1, in this order. */
  lemma StrictAcceptance(max: Word, nums: seq<Word>)
    ensures var (e, k) := Follow(max, false, 0, nums);
            && (e == CountReached <==> max < TWO32 && |nums| >= max && forall i :: 0 <= i < max ==> nums[i] == i)
            && (e == CountReached ==> k == max)
  {
    StrictFrom(max, 0, nums);
  }

  /** The i-th number after `base` accepted ones is not the next on 32 bits, and is looked at:
      the maximum is out of reach or not yet reached. */
  ghost predicate GapAt(max: Word, base: nat, nums: seq<Word>, i: nat) {
    i < |nums| && (max >= TWO32 || base + i < max) && nums[i] != (base + i) % TWO32
  }

  lemma {:induction false} GapFrom(max: Word, base: nat, nums: seq<Word>)
    requires max < TWO32 ==> base <= max
    ensures Follow(max, false, Wrap32(base), nums).0 == SeqError <==> exists i: nat :: GapAt(max, base, nums, i)
    decreases nums
  {
    hide Wrap32;
    var counter := Wrap32(base);
    Wrap32IsModulo(base);
    if max < TWO32 {
      Wrap32Word(base);
    }
    if counter == max || nums == [] {
      assert !exists i: nat :: GapAt(max, base, nums, i);
    } else if counter != nums[0] {
      assert GapAt(max, base, nums, 0);
    } else {
      var rest, next := nums[1..], base + 1;
      var k := Wrap32Quotient(base);
      Wrap32Period(base + 1, nums[0] as int + 1, k);
      GapFrom(max, next, rest);
      if i: nat :| GapAt(max, base, nums, i) {
        assert GapAt(max, next, rest, i - 1);
      }
      if i: nat :| GapAt(max, next, rest, i) {
        assert GapAt(max, base, nums, i + 1);
      }
    }
  }

  /** Strict mode stops with a sequence error exactly if some number, before the count is
      reached, is not its own index on 32 bits. */
  lemma StrictGap(max: Word, nums: seq<Word>)
    ensures Follow(max, false, 0, nums).0 == SeqError <==> exists i: nat :: GapAt(max, 0, nums, i)
  {
    GapFrom(max, 0, nums);
  }

  ghost predicate StopsAt(max: Word, nums: seq<Word>, k: nat) {
    && k < |nums| && (nums[k] + 1) % TWO32 == max
    && forall i :: 0 <= i < k ==> (nums[i] + 1) % TWO32 != max
  }

  /** With -G a positive count is reached exactly at the first number whose successor is
      the maximum on 32 bits, whatever came before; there is no sequence error. */
  lemma {:induction false} LenientStop(max: Word, counter: Word32, nums: seq<Word>)
    requires counter != max
    ensures var (e, k) := Follow(max, true, counter, nums);
            && e != SeqError
            && (e == CountReached ==> k > 0 && StopsAt(max, nums, k - 1))
            && ((exists i: nat :: StopsAt(max, nums, i)) ==> e == CountReached)
    decreases nums
  {
    if nums != [] {
      var next, rest := Next(nums[0]), nums[1..];
      Wrap32IsModulo(nums[0] as int + 1);
      assert forall i :: 1 <= i < |nums| ==> nums[i] == rest[i - 1];
      if next != max {
        LenientStop(max, next, rest);
        if i: nat :| StopsAt(max, nums, i) {
          assert StopsAt(max, rest, i - 1);
        }
      }
    }
  }

  /** While the numbers stay below 2^32 - 1 that is the number max - 1 itself. */
  lemma LenientAcceptance(max: Word, nums: seq<Word>)
    requires max > 0 && forall i :: 0 <= i < |nums| ==> nums[i] < TWO32 - 1
    ensures var (e, k) := Follow(max, true, 0, nums);
            && (e == CountReached <==> max - 1 in nums)
            && (e == CountReached ==> k > 0 && nums[k - 1] == max - 1 && max - 1 !in nums[..k - 1])
  {
    LenientStop(max, 0, nums);
    if max - 1 in nums {
      FirstStop(max, nums);
    }
  }

  lemma {:induction false} FirstStop(max: Word, nums: seq<Word>)
    requires max > 0 && max - 1 in nums && forall i :: 0 <= i < |nums| ==> nums[i] < TWO32 - 1
    ensures exists i: nat :: StopsAt(max, nums, i)
    decreases nums
  {
    if nums[0] == max - 1 {
      assert StopsAt(max, nums, 0);
    } else {
      FirstStop(max, nums[1..]);
      var i: nat :| StopsAt(max, nums[1..], i);
      assert forall j :: 1 <= j < |nums| ==> nums[j] == nums[1..][j - 1];
      assert StopsAt(max, nums, i + 1);
    }
  }

  // ---------------------------------------------------------------- on what the socket delivers

  /** The numbers the successive reads see, up to a read error. A short datagram leaves old
      bytes in the buffer. */
  function ReadNumbers(script: seq<Arrival>, buf: seq<Byte>): (seq<Word>, bool)
    requires |buf| == READ_BUF
    decreases script
  {
    if script == [] then ([], false) else
    match script[0]
    case Interrupt => ReadNumbers(script[1..], buf)
    case Fault => ([], true)
    case EndOfFile =>
      var (nums, failed) := ReadNumbers(script[1..], buf);
      ([GetSeqNum(buf)] + nums, failed)
    case Data(b) =>
      var after := Overwrite(buf, if |b| <= READ_BUF then b else b[..READ_BUF]);
      var (nums, failed) := ReadNumbers(script[1..], after);
      ([GetSeqNum(after)] + nums, failed)
  }

  function Verdict(max: Word, ignore: bool, counter: Word32, script: seq<Arrival>, buf: seq<Byte>): Exit
    requires |buf| == READ_BUF
  {
    var (nums, failed) := ReadNumbers(script, buf);
    var e := Follow(max, ignore, counter, nums).0;
    if e == StillWaiting && failed then ReadError else e
  }

  lemma {:induction false} NumbersUpToFault(before: seq<Arrival>, behind: seq<Arrival>, buf: seq<Byte>)
    requires |buf| == READ_BUF && Fault !in before
    ensures ReadNumbers(before + ([Fault] + behind), buf) == (ReadNumbers(before, buf).0, true)
    ensures !ReadNumbers(before, buf).1
    decreases before
  {
    hide GetSeqNum;
    var script := before + ([Fault] + behind);
    if before == [] {
      assert script == [Fault] + behind;
    } else {
      assert script[1..] == before[1..] + ([Fault] + behind);
      assert forall a :: a in before[1..] ==> a in before;
      var after := if before[0].Data? then
                     Overwrite(buf, if |before[0].bytes| <= READ_BUF then before[0].bytes else before[0].bytes[..READ_BUF])
                   else buf;
      NumbersUpToFault(before[1..], behind, after);
    }
  }

  /** An error matters exactly if the loop is still waiting when it gets there. */
  lemma ReadErrorIff(max: Word, ignore: bool, before: seq<Arrival>, behind: seq<Arrival>, buf: seq<Byte>)
    requires |buf| == READ_BUF && Fault !in before
    ensures var v := Verdict(max, ignore, 0, before, buf);
            && v != ReadError
            && Verdict(max, ignore, 0, before + ([Fault] + behind), buf) == if v == StillWaiting then ReadError else v
  {
    hide ReadNumbers, Follow;
    NumbersUpToFault(before, behind, buf);
    FollowNeverFails(max, ignore, 0, ReadNumbers(before, buf).0);
  }

  /** An empty datagram, or an end of file, is taken for the number before once more. */
  lemma EmptyReadRepeats(b: seq<Byte>, empty: Arrival, behind: seq<Arrival>, buf: seq<Byte>)
    requires |buf| == READ_BUF && |b| <= READ_BUF && (empty == Data([]) || empty == EndOfFile)
    ensures var nums := ReadNumbers([Data(b), empty] + behind, buf).0;
            |nums| >= 2 && nums[0] == nums[1] == GetSeqNum(Overwrite(buf, b))
  {
    hide GetSeqNum;
    var script, after := [Data(b), empty] + behind, Overwrite(buf, b);
    assert script[1..] == [empty] + behind;
    assert Overwrite(after, []) == after;
  }

  /** For datagrams of at least eight bytes the numbers are those in the datagrams. */
  lemma {:induction false} NumbersAreStamped(script: seq<Arrival>, buf: seq<Byte>)
    requires |buf| == READ_BUF && FullDatagrams(script, SEQ_BYTES)
    ensures var (nums, failed) := ReadNumbers(script, buf);
            && !failed && |nums| == |Datagrams(script)|
            && forall i :: 0 <= i < |nums| ==>
                 |Datagrams(script)[i]| >= SEQ_BYTES && nums[i] == GetSeqNum(Datagrams(script)[i])
    decreases script
  {
    if script != [] {
      match script[0]
      case Interrupt => NumbersAreStamped(script[1..], buf);
      case Data(b) =>
        var after := Overwrite(buf, if |b| <= READ_BUF then b else b[..READ_BUF]);
        assert after[..8] == b[..8];
        NumbersAreStamped(script[1..], after);
    }
  }

  /** What `Run` returns on full datagrams. In strict mode the count is reached if and only
      if the maximum fits the counter and the first `max` datagrams carry 0, 1, ..., max - 1;
      it stops with a sequence error if and only if some number before that is not its index
      on 32 bits. With -G the count is reached, for a positive maximum, if and only if some
      datagram's successor on 32 bits is the maximum, and there is no sequence error. No read
      error occurs. */
  lemma CountReachedIff(max: Word, script: seq<Arrival>, buf: seq<Byte>)
    requires |buf| == READ_BUF && FullDatagrams(script, SEQ_BYTES)
    ensures AllAtLeast(Datagrams(script), SEQ_BYTES)
    ensures var nums := SeqNums(Datagrams(script));
            && (Verdict(max, false, 0, script, buf) == CountReached <==>
                max < TWO32 && |nums| >= max && forall i :: 0 <= i < max ==> nums[i] == i)
            && (max > 0 ==>
                (Verdict(max, true, 0, script, buf) == CountReached <==> exists i: nat :: StopsAt(max, nums, i)))
            && (Verdict(max, false, 0, script, buf) == SeqError <==> exists i: nat :: GapAt(max, 0, nums, i))
            && (max == 0 ==> Verdict(max, true, 0, script, buf) == CountReached)
            && Verdict(max, true, 0, script, buf) != SeqError
            && Verdict(max, false, 0, script, buf) != ReadError
            && Verdict(max, true, 0, script, buf) != ReadError
  {
    hide GetSeqNum, ReadNumbers, Follow, StopsAt, GapAt;
    LongIsFull(script, SEQ_BYTES, SEQ_BYTES);
    NumbersAreStamped(script, buf);
    var (nums, _) := ReadNumbers(script, buf);
    assert nums == SeqNums(Datagrams(script));
    StrictAcceptance(max, nums);
    StrictGap(max, nums);
    if max == 0 {
      NothingToDo(true, nums);
    }
    FollowNeverFails(max, false, 0, nums);
    FollowNeverFails(max, true, 0, nums);
    if max > 0 {
      LenientStop(max, 0, nums);
    }
  }

  lemma NothingToDo(ignore: bool, nums: seq<Word>)
    ensures Follow(0, ignore, 0, nums) == (CountReached, 0)
  {
  }

  lemma {:induction false} FollowNeverFails(max: Word, ignore: bool, counter: Word32, nums: seq<Word>)
    ensures Follow(max, ignore, counter, nums).0 != ReadError
    decreases nums
  {
    if nums != [] {
      FollowNeverFails(max, ignore, Next(nums[0]), nums[1..]);
    }
  }

  // ---------------------------------------------------------------- the process

  /** One turn of the retried read, seen from the verdict. */
  lemma VerdictTurn(max: Word, ignore: bool, counter: Word32, script: seq<Arrival>, buf: seq<Byte>)
    requires |buf| == READ_BUF && counter != max
    ensures var (r, rest) := ReadCall(Datagram, script, READ_BUF);
            var v := Verdict(max, ignore, counter, script, buf);
            match r
            case NothingYet => v == StillWaiting
            case ReadFailed => v == ReadError
            case ReadInterrupted => |rest| < |script| && v == Verdict(max, ignore, counter, rest, buf)
            case Got(data) =>
              |rest| < |script| && |data| <= READ_BUF &&
              var after := Overwrite(buf, data);
              var seqNum := GetSeqNum(after);
              v == if counter != seqNum && !ignore then SeqError
                   else Verdict(max, ignore, Next(seqNum), rest, after)
  {
    hide GetSeqNum;
    assert Overwrite(buf, []) == buf;
    if script != [] && !script[0].Interrupt? && !script[0].Fault? {
      var after := Overwrite(buf, ReadCall(Datagram, script, READ_BUF).0.data);
      var (later, failed) := ReadNumbers(script[1..], after);
      assert ([GetSeqNum(after)] + later)[1..] == later;
    }
  }

  lemma ReachedVerdict(max: Word, ignore: bool, script: seq<Arrival>, buf: seq<Byte>)
    requires |buf| == READ_BUF && max < TWO32
    ensures Verdict(max, ignore, max, script, buf) == CountReached
  {
  }

  method Run(sock: Socket, maxReadCounter: Word, ignoreSeqNumError: bool) returns (exit: Exit, ghost before: seq<Byte>)
    requires sock.mode == Datagram
    modifies sock`arrivals
    ensures |before| == READ_BUF
    ensures exit == Verdict(maxReadCounter, ignoreSeqNumError, 0, old(sock.arrivals), before)
  {
    var readBuf := new Byte[READ_BUF];
    before := readBuf[..];
    var readCounter: Word32 := 0;
    while true
      invariant sock.mode == Datagram
      invariant Verdict(maxReadCounter, ignoreSeqNumError, readCounter, sock.arrivals, readBuf[..])
                == Verdict(maxReadCounter, ignoreSeqNumError, 0, old(sock.arrivals), before)
      decreases |sock.arrivals|
    {
      hide ReadCall, GetSeqNum, Verdict, Wrap32, Next;
      if readCounter == maxReadCounter {
        ReachedVerdict(maxReadCounter, ignoreSeqNumError, sock.arrivals, readBuf[..]);
        return CountReached, before;
      }
      VerdictTurn(maxReadCounter, ignoreSeqNumError, readCounter, sock.arrivals, readBuf[..]);
      ghost var was := readBuf[..];
      var n := sock.Read(readBuf, 0, READ_BUF);
      match n
      case NothingYet => return StillWaiting, before;
      case ReadFailed => return ReadError, before;
      case ReadInterrupted =>
      case Got(_) =>
        assert readBuf[..] == Overwrite(was, n.data);
        var seqNum := GetSeqNum(readBuf[..]);
        NextBySteps(readCounter, seqNum);
        if readCounter != seqNum {
          if ignoreSeqNumError {
            readCounter := Wrap32(seqNum);
          } else {
            return SeqError, before;
          }
        }
        readCounter := Wrap32(readCounter as int + 1);
    }
  }
}
