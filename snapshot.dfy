/** `get_last_lines`: the last `NUM_LINES` lines of an open file, kept in a
    bounded deque, joined with spaces and converted. */
module Snapshot {
  import opened Lines
  import opened LogFile

  /** The array index of the `k`-th oldest line of a ring that starts at `start`. */
  function Ring(start: nat, k: nat, capacity: nat): (i: nat)
    requires start < capacity && k < capacity
    ensures i < capacity
  {
    if start + k < capacity then start + k else start + k - capacity
  }

  /** The ring `cells`, read from `start`, holds `lines`, oldest first. */
  ghost predicate Holds(lines: seq<string>, cells: seq<string>, start: nat) {
    |lines| <= |cells| && (|cells| > 0 ==> start < |cells|) &&
    forall k :: 0 <= k < |lines| ==> lines[k] == cells[Ring(start, k, |cells|)]
  }

  /** Writing the slot after the last line of a ring that is not full adds the line. */
  lemma HoldsPush(lines: seq<string>, cells: seq<string>, start: nat, line: string)
    requires Holds(lines, cells, start) && |lines| < |cells|
    ensures Holds(lines + [line], cells[Ring(start, |lines|, |cells|) := line], start)
  {
    var slot := Ring(start, |lines|, |cells|);
    var next := cells[slot := line];
    forall k | 0 <= k < |lines|
      ensures lines[k] == next[Ring(start, k, |cells|)]
    {
      assert Ring(start, k, |cells|) != slot;
    }
  }

  /** Overwriting the oldest line of a full ring and moving its start drops
      that line and adds the new one. */
  lemma HoldsRotate(lines: seq<string>, cells: seq<string>, start: nat, line: string)
    requires Holds(lines, cells, start) && |lines| == |cells| > 0
    ensures Holds(lines[1..] + [line], cells[start := line], if start + 1 < |cells| then start + 1 else 0)
  {
    var next := cells[start := line];
    var s1 := if start + 1 < |cells| then start + 1 else 0;
    var moved := lines[1..] + [line];
    forall k | 0 <= k < |moved|
      ensures moved[k] == next[Ring(s1, k, |cells|)]
    {
      if k < |moved| - 1 {
        assert Ring(s1, k, |cells|) == Ring(start, k + 1, |cells|);
      }
    }
  }

  /** `collections.deque(maxlen=capacity)` of lines: a ring buffer over an
      array; appending to a full deque drops its oldest line. */
  class LineDeque {
    ghost var Contents: seq<string>  // the lines, oldest first
    ghost var Appended: seq<string>  // every line ever appended, oldest first

    const capacity: nat
    var buf: array<string>
    var start: nat
    var len: nat

    /** The array holds `Contents` as a ring. */
    ghost predicate Stored()
      reads this, buf
    {
      buf.Length == capacity && len == |Contents| && start <= capacity &&
      Holds(Contents, buf[..], start)
    }

    ghost predicate Valid()
      reads this, buf
    {
      Stored() && Contents == LastN(Appended, capacity)
    }

    constructor (capacity: nat)
      ensures Valid() && fresh(buf) && this.capacity == capacity
      ensures Contents == [] && Appended == []
    {
      this.capacity := capacity;
      buf := new string[capacity];
      start, len := 0, 0;
      Contents, Appended := [], [];
      assert LastN<string>([], capacity) == [];
    }

    /** `append(line)`: the deque then holds the last `capacity` lines
        appended so far. */
    method Append(line: string)
      requires Valid()
      modifies this, buf
      ensures Valid() && buf == old(buf) && Appended == old(Appended) + [line]
      ensures Contents ==
        if capacity == 0 then []
        else if |old(Contents)| == capacity then old(Contents)[1..] + [line]
        else old(Contents) + [line]
    {
      LastNSnoc(Appended, line, capacity);
      if capacity == 0 {
      } else if len < capacity {
        PushBack(line);
      } else {
        Rotate(line);
      }
      Appended := Appended + [line];
    }

    /** A deque that is not full takes the line in the slot after its last line. */
    method PushBack(line: string)
      requires Stored() && len < capacity
      modifies this, buf
      ensures Stored() && buf == old(buf) && Contents == old(Contents) + [line]
      ensures Appended == old(Appended)
    {
      ghost var cells := buf[..];
      var slot := Ring(start, len, capacity);
      HoldsPush(Contents, cells, start, line);
      buf[slot] := line;
      assert buf[..] == cells[slot := line];
      len := len + 1;
      Contents := Contents + [line];
    }

    /** A full deque overwrites its oldest line, which then becomes the newest. */
    method Rotate(line: string)
      requires Stored() && 0 < len == capacity
      modifies this, buf
      ensures Stored() && buf == old(buf) && Contents == old(Contents)[1..] + [line]
      ensures Appended == old(Appended)
    {
      ghost var cells := buf[..];
      HoldsRotate(Contents, cells, start, line);
      buf[start] := line;
      assert buf[..] == cells[start := line];
      start := if start + 1 < capacity then start + 1 else 0;
      Contents := Contents[1..] + [line];
    }

    /** `extend(file)`: appends every line left in the file, reading it to
        its end. */
    method Extend(f: LogHandle)
      requires Valid() && f.Valid()
      modifies this, buf, f
      ensures Valid() && buf == old(buf)
      ensures f.Valid() && f.data == old(f.data) && f.pos == |f.data|
      ensures Appended == old(Appended) + SplitLines(old(f.data)[old(f.pos)..])
    {
      ghost var unread := f.data[f.pos..];
      while true
        invariant Valid() && buf == old(buf)
        invariant f.Valid() && f.data == old(f.data)
        invariant Appended + SplitLines(f.data[f.pos..]) == old(Appended) + SplitLines(unread)
        decreases |f.data| - f.pos
      {
        ghost var before := f.data[f.pos..];
        var line := f.ReadLine();
        ConsumeLine(Appended, line, before, f.data[f.pos..], old(Appended) + SplitLines(unread));
        if line == [] {
          break;
        }
        Append(line);
      }
    }

    /** Iteration over the deque: its lines, oldest first. */
    method Items() returns (lines: seq<string>)
      requires Valid()
      ensures lines == Contents
    {
      lines := [];
      for k := 0 to len
        invariant lines == Contents[..k]
      {
        lines := lines + [buf[Ring(start, k, capacity)]];
      }
    }
  }

  /** `deque(file, NUM_LINES)`: reads the file to its end, keeping only its
      last `NUM_LINES` lines. */
  method ReadLastLines(f: LogHandle) returns (kept: seq<string>)
    requires f.Valid()
    modifies f
    ensures f.Valid() && f.data == old(f.data) && f.pos == |f.data|
    ensures kept == LastLines(old(f.data)[old(f.pos)..])
  {
    ghost var unread := f.data[f.pos..];
    var lines := new LineDeque(NUM_LINES);
    lines.Extend(f);
    assert lines.Appended == SplitLines(unread) by {
      assert [] + SplitLines(unread) == SplitLines(unread);
    }
    kept := lines.Items();
  }

  /** `get_last_lines(file)`: the converted text of the file's last
      `NUM_LINES` lines, joined with single spaces. */
  method GetLastLines(f: LogHandle, convert: string -> string) returns (content: string)
    requires f.Valid()
    modifies f
    ensures f.Valid() && f.data == old(f.data) && f.pos == |f.data|
    ensures content == convert(JoinWithSpace(LastLines(old(f.data)[old(f.pos)..])))
  {
    var lines := ReadLastLines(f);
    content := convert(JoinWithSpace(lines));
  }
}
