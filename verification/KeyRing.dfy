/** The keyboard ring, filled by the interrupt handler and drained by console_read_line. */
module KeyRing {
  import opened Words

  type Word = w: int | 0 <= w < 0x1_0000_0000

  const KEY_BUFFER_SIZE: nat := 128
  const CAPACITY: nat := 127
  const NEWLINE: Word := 10

  /** A bounded queue: a key that does not fit is lost. */
  function Add(q: seq<Word>, key: Word): seq<Word> {
    if |q| < CAPACITY then q + [key] else q
  }

  function AddAll(q: seq<Word>, keys: seq<Word>): seq<Word>
    decreases |keys|
  {
    if keys == [] then q else AddAll(Add(q, keys[0]), keys[1..])
  }

  lemma {:induction false} AddAllKeeps(q: seq<Word>, keys: seq<Word>)
    ensures |q| <= |AddAll(q, keys)| && AddAll(q, keys)[..|q|] == q
    ensures |q| <= CAPACITY ==> |AddAll(q, keys)| <= CAPACITY
    decreases |keys|
  {
    if keys != [] {
      AddAllKeeps(Add(q, keys[0]), keys[1..]);
      assert AddAll(q, keys)[..|q|] == AddAll(q, keys)[..|Add(q, keys[0])|][..|q|];
    }
  }

  /** The keys that fit are queued, all of them and in order. */
  lemma {:induction false} AddAllFits(q: seq<Word>, keys: seq<Word>)
    requires |q| <= 127
    ensures AddAll(q, keys) == q + keys[..if |keys| <= 127 - |q| then |keys| else 127 - |q|]
    decreases |keys|
  {
    if keys != [] { AddAllFits(Add(q, keys[0]), keys[1..]); }
  }

  predicate NoZero(keys: seq<Word>) { forall i :: 0 <= i < |keys| ==> keys[i] != 0 }

  lemma {:induction false} AddAllNonzero(q: seq<Word>, keys: seq<Word>)
    requires NoZero(q) && NoZero(keys)
    ensures NoZero(AddAll(q, keys))
    decreases |keys|
  {
    if keys != [] { AddAllNonzero(Add(q, keys[0]), keys[1..]); }
  }

  class Ring {
    const key_buffer: array<Word>
    var head: nat
    var tail: nat
    ghost var Contents: seq<Word>

    ghost predicate Valid()
      reads this, key_buffer
    {
      && key_buffer.Length == KEY_BUFFER_SIZE && head < KEY_BUFFER_SIZE && tail < KEY_BUFFER_SIZE
      && |Contents| == (if tail <= head then head - tail else head + KEY_BUFFER_SIZE - tail)
      && forall i :: 0 <= i < |Contents| ==>
           Contents[i] == key_buffer[if tail + i < KEY_BUFFER_SIZE then tail + i else tail + i - KEY_BUFFER_SIZE]
    }

    constructor ()
      ensures Valid() && Contents == [] && fresh(key_buffer)
    {
      key_buffer := new Word[KEY_BUFFER_SIZE](i => 0);
      head, tail, Contents := 0, 0, [];
    }

    method AddKeyToBuffer(key: Word)
      requires Valid()
      modifies this`head, this`Contents, key_buffer
      ensures Valid() && Contents == Add(old(Contents), key)
    {
      var nextHead := (head + 1) % KEY_BUFFER_SIZE;
      if nextHead != tail {
        key_buffer[head] := key;
        head := nextHead;
        Contents := Contents + [key];
      }
    }

    method GetKeyFromBuffer() returns (key: Word)
      requires Valid()
      modifies this`tail, this`Contents
      ensures Valid()
      ensures if old(Contents) == [] then key == 0 && Contents == []
              else key == old(Contents)[0] && Contents == old(Contents)[1..]
    {
      if head == tail {
        return 0;
      }
      key := key_buffer[tail];
      tail := (tail + 1) % KEY_BUFFER_SIZE;
      Contents := Contents[1..];
    }

    /** Key presses that arrive one after the other. */
    method Interrupts(keys: seq<Word>)
      requires Valid()
      modifies this`head, this`Contents, key_buffer
      ensures Valid() && Contents == AddAll(old(Contents), keys)
    {
      var i := 0;
      while i < |keys|
        invariant i <= |keys| && Valid() && AddAll(old(Contents), keys) == AddAll(Contents, keys[i..])
      {
        assert keys[i..][0] == keys[i] && keys[i..][1..] == keys[i + 1..];
        AddKeyToBuffer(keys[i]);
        i := i + 1;
      }
    }

    /** `get_key_from_buffer` with the producer interrupting between the read of the slot and the update of the tail:
        the key read is still the oldest one, and the outcome is that of adding the keys first. */
    method GetKeyInterrupted(keys: seq<Word>) returns (key: Word)
      requires Valid()
      modifies this`head, this`tail, this`Contents, key_buffer
      ensures Valid()
      ensures if old(Contents) == [] then key == 0 && Contents == []
              else AddAll(old(Contents), keys) == [key] + Contents && key == old(Contents)[0]
    {
      AddAllKeeps(Contents, keys);
      if head == tail {
        return 0;
      }
      key := key_buffer[tail];
      Interrupts(keys);
      assert AddAll(old(Contents), keys)[..|old(Contents)|][0] == old(Contents)[0];
      tail := (tail + 1) % KEY_BUFFER_SIZE;
      Contents := Contents[1..];
    }

    /** One look at the ring: as if all its keys had arrived before. */
    method Look(poll: Poll) returns (key: Word)
      requires Valid()
      modifies this`head, this`tail, this`Contents, key_buffer
      ensures Valid()
      ensures var q := AddAll(old(Contents), Arrival(old(Contents), poll));
        if q == [] then key == 0 && Contents == [] else key == q[0] && Contents == q[1..]
    {
      ArrivalKept(Contents, poll);
      Interrupts(poll.before);
      ghost var q := Contents;
      key := GetKeyInterrupted(poll.during);
      assert q != [] ==> ([key] + Contents)[1..] == Contents;
    }

    method Store(out: array<Byte>, count: nat, key: Word, ghost line: seq<Word>) returns (count': nat)
      requires count < out.Length && out[..count] == Chars(line)
      modifies out
      ensures count' == count + 1 && out[..count'] == Chars(line + [key])
    {
      out[count] := key % 256;
      CharsAppend(line, key);
      assert out[..count + 1] == out[..count] + [key % 256];
      count' := count + 1;
    }

    /** The inner loop: polls until a key comes. The key is 0 if the polls end first. */
    method WaitForKey(polls: seq<Poll>) returns (key: Word, rest: seq<Poll>)
      requires Valid()
      modifies this`head, this`tail, this`Contents, key_buffer
      ensures Valid() && Awaited(key, Contents, rest) == Await(old(Contents), polls)
    {
      key, rest := 0, polls;
      while key == 0 && rest != []
        invariant Valid()
        invariant Await(old(Contents), polls)
               == if key == 0 then Await(Contents, rest) else Awaited(key, Contents, rest)
        decreases |rest|
      {
        key := Look(rest[0]);
        rest := rest[1..];
      }
    }

    /** The loop body: waits for a key and stores it. */
    method ReadKey(out: array<Byte>, count: nat, ghost line: seq<Word>, ghost room: nat, polls: seq<Poll>)
      returns (key: Word, rest: seq<Poll>)
      requires Valid() && out as object != key_buffer && room > 0 && count < out.Length && out[..count] == Chars(line)
      modifies this`head, this`tail, this`Contents, key_buffer, out
      ensures Valid()
      ensures var goal := Remaining(line, old(Contents), room, polls);
        if key == 0 then goal == Line(line, Contents, false) && out[..count] == Chars(line)
        else
          && out[..count + 1] == Chars(line + [key])
          && goal == if key == NEWLINE then Line(line + [key], Contents, true)
                     else Remaining(line + [key], Contents, room - 1, rest)
    {
      ReadStep(line, Contents, room, polls);
      key, rest := WaitForKey(polls);
      if key != 0 {
        var count' := Store(out, count, key, line);
      }
    }

    /** The outer loop: reads keys until the buffer is full but for one byte, or the line ends. */
    method ReadKeys(out: array<Byte>, len: nat, polls: seq<Poll>) returns (done: bool, count: nat)
      requires Valid() && 0 < out.Length && len <= out.Length && out as object != key_buffer
      modifies this`head, this`tail, this`Contents, key_buffer, out
      ensures Valid()
      ensures var r := ReadLine(old(Contents), Room(len), Merged(old(Contents), polls));
        && done == r.done && count == |r.line| <= Room(len) && Contents == r.left && out[..count] == Chars(r.line)
    {
      count := 0;
      var rest := polls;
      ghost var line: seq<Word> := [];
      ghost var goal := Remaining(line, Contents, Room(len), polls);
      while count + 1 < len
        invariant Valid() && count == |line| <= Room(len) && out[..count] == Chars(line)
        invariant goal == Remaining(line, Contents, Room(len) - count, rest)
        decreases Room(len) - count
      {
        var key;
        key, rest := ReadKey(out, count, line, Room(len) - count, rest);
        if key == 0 {
          NothingRead(old(Contents), Room(len), polls);
          return false, count;
        }
        line := line + [key];
        count := count + 1;
        if key == NEWLINE {
          break;
        }
      }
      NoRoom(line, Contents, rest);
      NothingRead(old(Contents), Room(len), polls);
      done := true;
    }

    /** `console_read_line`. Each poll brings the keys that come in before it looks at the ring and while it reads;
        `done` is false if the polls end while the call still waits. */
    method ConsoleReadLine(out: array<Byte>, len: nat, polls: seq<Poll>) returns (done: bool, count: nat)
      requires Valid() && 0 < out.Length && len <= out.Length && out as object != key_buffer
      modifies this`head, this`tail, this`Contents, key_buffer, out
      ensures Valid()
      ensures var r := ReadLine(old(Contents), Room(len), Merged(old(Contents), polls));
        && done == r.done && count == |r.line| < out.Length && Contents == r.left && out[..count] == Chars(r.line)
        && LineEnds(r, len)
      ensures done ==> out[count] == 0
      ensures done && len > 0 ==> count == len - 1 || (0 < count < len && out[count - 1] == '\n' as int)
    {
      ghost var r := ReadLine(Contents, Room(len), Merged(Contents, polls));
      ReadLineEnds(Contents, len, Merged(Contents, polls));
      done, count := ReadKeys(out, len, polls);
      if done {
        LastChar(r, len, out[..count]);
        Terminate(out, count);
      }
    }

    method Terminate(out: array<Byte>, count: nat)
      requires count < out.Length
      modifies out
      ensures out[count] == 0 && out[..count] == old(out[..count])
      ensures count > 0 ==> out[count - 1] == old(out[..count])[count - 1]
    {
      out[count] := 0;
    }
  }

  /** The line that is being read: what was read of it and what the polls will bring. */
  ghost function Remaining(line: seq<Word>, q: seq<Word>, room: nat, polls: seq<Poll>): Line {
    Prepend(line, ReadLine(q, room, Merged(q, polls)))
  }

  lemma NothingRead(q: seq<Word>, room: nat, polls: seq<Poll>)
    ensures Remaining([], q, room, polls) == ReadLine(q, room, Merged(q, polls))
  {
  }

  lemma NoRoom(line: seq<Word>, q: seq<Word>, polls: seq<Poll>)
    ensures Remaining(line, q, 0, polls) == Line(line, q, true)
  {
  }

  // ----- Arrivals -----

  /** The keys that come in before a look at the ring, and those that come in between the read of the slot and the
      update of the tail. If the ring is empty, no slot is read. */
  datatype Poll = Poll(before: seq<Word>, during: seq<Word>)

  function Arrival(q: seq<Word>, poll: Poll): seq<Word> {
    if AddAll(q, poll.before) == [] then poll.before else poll.before + poll.during
  }

  lemma {:induction false} AddAllJoin(q: seq<Word>, a: seq<Word>, b: seq<Word>)
    ensures AddAll(q, a + b) == AddAll(AddAll(q, a), b)
    decreases |a|
  {
    if a == [] {
      assert a + b == b;
    } else {
      assert (a + b)[1..] == a[1..] + b;
      AddAllJoin(Add(q, a[0]), a[1..], b);
    }
  }

  lemma ArrivalKept(q: seq<Word>, poll: Poll)
    ensures var q1, q2 := AddAll(q, poll.before), AddAll(q, Arrival(q, poll));
      if q1 == [] then q2 == [] else q2 == AddAll(q1, poll.during) && q2 != [] && q2[0] == q1[0]
  {
    AddAllJoin(q, poll.before, poll.during);
    var q1 := AddAll(q, poll.before);
    AddAllKeeps(q1, poll.during);
    assert q1 != [] ==> AddAll(q1, poll.during)[..|q1|][0] == q1[0];
  }

  /** The polls with all the keys of each at its start. */
  function Merged(q: seq<Word>, polls: seq<Poll>): (r: seq<seq<Word>>)
    ensures |r| == |polls|
    decreases |polls|
  {
    if polls == [] then []
    else
      var a := Arrival(q, polls[0]);
      var q1 := AddAll(q, a);
      [a] + Merged(if q1 == [] then [] else q1[1..], polls[1..])
  }

  /** How many keys fit into a buffer of this length before the NUL. */
  function Room(len: nat): nat { if len == 0 then 0 else len - 1 }

  /** The next nonzero key, the keys it leaves in the ring, and the polls that are left. */
  datatype Awaited = Awaited(key: Word, left: seq<Word>, rest: seq<Poll>)

  function Await(q: seq<Word>, polls: seq<Poll>): (r: Awaited)
    ensures |r.rest| <= |polls|
    decreases |polls|
  {
    if polls == [] then Awaited(0, q, [])
    else
      var q1 := AddAll(q, Arrival(q, polls[0]));
      if q1 == [] then Await([], polls[1..])
      else if q1[0] == 0 then Await(q1[1..], polls[1..])
      else Awaited(q1[0], q1[1..], polls[1..])
  }

  /** The key that is awaited is the first of the line. */
  lemma {:induction false} AwaitLine(q: seq<Word>, room: nat, polls: seq<Poll>)
    requires room > 0
    ensures var w := Await(q, polls);
      ReadLine(q, room, Merged(q, polls)) ==
      if w.key == 0 then Line([], w.left, false)
      else if w.key == NEWLINE then Line([NEWLINE], w.left, true)
      else Prepend([w.key], ReadLine(w.left, room - 1, Merged(w.left, w.rest)))
    decreases |polls|
  {
    if polls != [] {
      var q1, arrivals := AddAll(q, Arrival(q, polls[0])), Merged(q, polls);
      var q2 := if q1 == [] then [] else q1[1..];
      assert arrivals[0] == Arrival(q, polls[0]) && arrivals[1..] == Merged(q2, polls[1..]);
      AwaitLine(q2, room, polls[1..]);
    }
  }

  /** One turn of the loop of `console_read_line`. */
  lemma ReadStep(line: seq<Word>, q: seq<Word>, room: nat, polls: seq<Poll>)
    requires room > 0
    ensures var w := Await(q, polls);
      Remaining(line, q, room, polls) ==
      if w.key == 0 then Line(line, w.left, false)
      else if w.key == NEWLINE then Line(line + [NEWLINE], w.left, true)
      else Remaining(line + [w.key], w.left, room - 1, w.rest)
  {
    AwaitLine(q, room, polls);
    var w := Await(q, polls);
    if w.key != 0 && w.key != NEWLINE {
      var rest := ReadLine(w.left, room - 1, Merged(w.left, w.rest));
      assert line + ([w.key] + rest.line) == line + [w.key] + rest.line;
    }
  }

  function Chars(keys: seq<Word>): seq<Byte> {
    seq(|keys|, i requires 0 <= i < |keys| => keys[i] % 256)
  }

  lemma CharsAt(keys: seq<Word>, i: nat)
    requires i < |keys|
    ensures |Chars(keys)| == |keys| && Chars(keys)[i] == keys[i] % 256
  {
  }

  lemma CharsAppend(keys: seq<Word>, key: Word)
    ensures Chars(keys + [key]) == Chars(keys) + [key % 256]
  {
  }

  /** The keys of a line, the keys left in the ring, and whether the line was finished. */
  datatype Line = Line(line: seq<Word>, left: seq<Word>, done: bool)

  function Prepend(keys: seq<Word>, l: Line): Line { l.(line := keys + l.line) }

  /** Reads up to `room` keys, or up to a newline. A zero counts as no key. */
  function ReadLine(q: seq<Word>, room: nat, arrivals: seq<seq<Word>>): Line
    decreases |arrivals|
  {
    if room == 0 then Line([], q, true)
    else if arrivals == [] then Line([], q, false)
    else
      var q1 := AddAll(q, arrivals[0]);
      if q1 == [] then ReadLine([], room, arrivals[1..])
      else if q1[0] == 0 then ReadLine(q1[1..], room, arrivals[1..])
      else if q1[0] == NEWLINE then Line([NEWLINE], q1[1..], true)
      else Prepend([q1[0]], ReadLine(q1[1..], room - 1, arrivals[1..]))
  }

  /** A finished line has len - 1 keys or ends in its only newline; an unfinished one has neither. It has no zero. */
  ghost predicate LineEnds(r: Line, len: nat) {
    && NoZero(r.line)
    && if len == 0 then r.done && r.line == []
       else
         && |r.line| <= len - 1
         && (r.done <==> |r.line| == len - 1 || (r.line != [] && r.line[|r.line| - 1] == '\n' as int))
         && forall i :: 0 <= i < |r.line| - 1 ==> r.line[i] != '\n' as int
  }

  lemma {:induction false} ReadLineEnds(q: seq<Word>, len: nat, arrivals: seq<seq<Word>>)
    ensures LineEnds(ReadLine(q, Room(len), arrivals), len)
    decreases |arrivals|
  {
    if len > 1 && arrivals != [] {
      var q1, rest := AddAll(q, arrivals[0]), arrivals[1..];
      if q1 == [] {
        ReadLineEnds([], len, rest);
      } else if q1[0] == 0 {
        ReadLineEnds(q1[1..], len, rest);
      } else if q1[0] != NEWLINE {
        ReadLineEnds(q1[1..], len - 1, rest);
      }
    }
  }

  lemma LastChar(r: Line, len: nat, chars: seq<Byte>)
    requires LineEnds(r, len) && r.done && chars == Chars(r.line)
    ensures len > 0 ==> |chars| == len - 1 || (chars != [] && chars[|chars| - 1] == '\n' as int)
  {
    if r.line != [] { CharsAt(r.line, |r.line| - 1); }
  }

  /** The keys that the ring accepts during the same polls, in order: a poll takes one key out and lets new ones in. */
  function Stream(q: seq<Word>, polls: seq<seq<Word>>): seq<Word>
    decreases |polls|
  {
    if polls == [] then q
    else
      var q1 := AddAll(q, polls[0]);
      if q1 == [] then Stream([], polls[1..]) else [q1[0]] + Stream(q1[1..], polls[1..])
  }

  /** r is the part of the stream up to its first newline, or up to the room in the buffer, and the rest of the stream
      is left. */
  ghost predicate Cut(r: Line, stream: seq<Word>, room: nat) {
    && r.line + r.left == stream && |r.line| <= room
    && (forall i :: 0 <= i < |r.line| - 1 ==> r.line[i] != NEWLINE)
    && (r.done <==> |r.line| == room || (r.line != [] && r.line[|r.line| - 1] == NEWLINE))
  }

  lemma CutLonger(r: Line, stream: seq<Word>, room: nat, key: Word)
    requires Cut(r, stream, room) && key != NEWLINE
    ensures Cut(Prepend([key], r), [key] + stream, room + 1)
  {
    assert [key] + r.line + r.left == [key] + (r.line + r.left);
  }

  lemma StreamStep(q: seq<Word>, arrivals: seq<seq<Word>>, n: nat)
    requires n < |arrivals|
    ensures var q1 := AddAll(q, arrivals[0]);
      Stream(q, arrivals[..n + 1])
      == if q1 == [] then Stream([], arrivals[1..][..n]) else [q1[0]] + Stream(q1[1..], arrivals[1..][..n])
  {
    assert arrivals[..n + 1][0] == arrivals[0] && arrivals[..n + 1][1..] == arrivals[1..][..n];
  }

  /** For nonzero keys, the call consumes exactly the keys it returns: the accepted stream up to its first newline, or
      up to the room in the buffer, whichever comes first. */
  lemma {:induction false} LineIsPrefix(q: seq<Word>, room: nat, arrivals: seq<seq<Word>>) returns (polls: nat)
    requires NoZero(q) && forall i :: 0 <= i < |arrivals| ==> NoZero(arrivals[i])
    ensures polls <= |arrivals| && Cut(ReadLine(q, room, arrivals), Stream(q, arrivals[..polls]), room)
    ensures !ReadLine(q, room, arrivals).done ==> polls == |arrivals|
    decreases |arrivals|
  {
    polls := 0;
    if room > 0 && arrivals != [] {
      var q1, rest := AddAll(q, arrivals[0]), arrivals[1..];
      AddAllNonzero(q, arrivals[0]);
      if q1 == [] {
        polls := LineIsPrefix([], room, rest);
      } else if q1[0] != NEWLINE {
        polls := LineIsPrefix(q1[1..], room - 1, rest);
        CutLonger(ReadLine(q1[1..], room - 1, rest), Stream(q1[1..], rest[..polls]), room - 1, q1[0]);
      }
      StreamStep(q, arrivals, polls);
      polls := polls + 1;
    }
  }

  function NonZeros(keys: seq<Word>): seq<Word> {
    if keys == [] then [] else (if keys[0] == 0 then [] else [keys[0]]) + NonZeros(keys[1..])
  }

  lemma NonZerosHead(key: Word, keys: seq<Word>)
    ensures NonZeros([key] + keys) == (if key == 0 then [] else [key]) + NonZeros(keys)
  {
    assert ([key] + keys)[1..] == keys;
  }

  lemma TakenStep(key: Word, stream: seq<Word>, n: nat)
    requires n <= |stream|
    ensures ([key] + stream)[n + 1..] == stream[n..]
    ensures NonZeros(([key] + stream)[..n + 1]) == (if key == 0 then [] else [key]) + NonZeros(stream[..n])
  {
    assert ([key] + stream)[..n + 1] == [key] + stream[..n];
    NonZerosHead(key, stream[..n]);
  }

  /** For any keys: the line is made of the nonzero ones among the first n keys of the accepted stream, and all the
      others are left. */
  lemma {:induction false} LineTaken(q: seq<Word>, room: nat, arrivals: seq<seq<Word>>) returns (polls: nat, n: nat)
    ensures polls <= |arrivals| && n <= |Stream(q, arrivals[..polls])|
    ensures var r, stream := ReadLine(q, room, arrivals), Stream(q, arrivals[..polls]);
      r.line == NonZeros(stream[..n]) && r.left == stream[n..]
    decreases |arrivals|
  {
    polls, n := 0, 0;
    if room > 0 && arrivals != [] {
      var q1, rest := AddAll(q, arrivals[0]), arrivals[1..];
      if q1 == [] {
        polls, n := LineTaken([], room, rest);
      } else {
        if q1[0] == 0 {
          polls, n := LineTaken(q1[1..], room, rest);
        } else if q1[0] != NEWLINE {
          polls, n := LineTaken(q1[1..], room - 1, rest);
        }
        TakenStep(q1[0], Stream(q1[1..], rest[..polls]), n);
        n := n + 1;
      }
      StreamStep(q, arrivals, polls);
      polls := polls + 1;
    }
  }
}
