/** The fixed-size history that overwrites its oldest entry when full. */
module CircularHistory {
  import opened Common

  function LastN<T>(s: seq<T>, n: nat): (r: seq<T>)
    ensures |r| == Min(|s|, n)
  {
    if |s| <= n then s else s[|s| - n..]
  }

  /** One push onto a window is one push onto the whole history. */
  lemma LastNPush<T>(s: seq<T>, x: T, n: nat)
    ensures LastN(LastN(s, n) + [x], n) == LastN(s + [x], n)
  {
  }

  /** The contents of the cells, oldest first. */
  function Laid<T>(cells: seq<T>, index: nat, filled: bool): seq<T>
    requires index <= |cells|
  {
    if filled then cells[index..] + cells[..index] else cells[..index]
  }

  lemma TailOfRotation<T>(a: seq<T>, b: seq<T>, x: T)
    requires a != []
    ensures (a + b + [x])[1..] == a[1..] + (b + [x])
  {
  }

  lemma PushInside<T>(cells: seq<T>, index: nat, filled: bool, x: T)
    requires index + 1 < |cells|
    ensures Laid(cells[index := x], index + 1, filled) == LastN(Laid(cells, index, filled) + [x], |cells|)
  {
    var after := cells[index := x];
    assert after[..index + 1] == cells[..index] + [x];
    assert after[index + 1..] == cells[index + 1..];
    assert cells[index..][1..] == cells[index + 1..];
    if filled {
      TailOfRotation(cells[index..], cells[..index], x);
    }
  }

  lemma PushAtEnd<T>(cells: seq<T>, index: nat, filled: bool, x: T)
    requires index + 1 == |cells|
    ensures Laid(cells[index := x], 0, true) == LastN(Laid(cells, index, filled) + [x], |cells|)
  {
    var after := cells[index := x];
    assert after == cells[..index] + [x];
    assert after[0..] + after[..0] == after;
    if filled {
      TailOfRotation(cells[index..], cells[..index], x);
      assert cells[index..][1..] == [];
      assert [] + (cells[..index] + [x]) == cells[..index] + [x];
    }
  }

  /** Overwriting the cell under the index and stepping it on is one push onto a window. */
  lemma LaidPush<T>(cells: seq<T>, index: nat, filled: bool, x: T)
    requires index < |cells|
    ensures var next := (index + 1) % |cells|;
            Laid(cells[index := x], next, filled || next == 0) == LastN(Laid(cells, index, filled) + [x], |cells|)
  {
    hide Laid, LastN;
    if index + 1 < |cells| {
      PushInside(cells, index, filled, x);
    } else {
      PushAtEnd(cells, index, filled, x);
    }
  }

  class CircularBuffer<T(0)> {
    const buffer: array<T>
    var index: nat
    var filled: bool
    /** Everything ever pushed. */
    ghost var pushed: seq<T>

    ghost function Repr(): set<object> {
      {this, buffer}
    }

    ghost predicate Valid()
      reads Repr()
    {
      && index < buffer.Length
      && (if filled then |pushed| >= buffer.Length else |pushed| == index)
      && Laid(buffer[..], index, filled) == LastN(pushed, buffer.Length)
    }

    constructor (size: nat)
      requires 0 < size
      ensures Valid() && fresh(Repr()) && buffer.Length == size && pushed == []
    {
      buffer := new T[size];
      index, filled, pushed := 0, false, [];
    }

    method Push(item: T)
      requires Valid()
      modifies Repr()
      ensures Valid() && pushed == old(pushed) + [item]
    {
      LastNPush(pushed, item, buffer.Length);
      LaidPush(buffer[..], index, filled, item);
      ghost var cells := buffer[..];
      buffer[index] := item;
      assert buffer[..] == cells[index := item];
      index := (index + 1) % buffer.Length;
      if index == 0 {
        filled := true;
      }
      pushed := pushed + [item];
    }

    /** Always the last `min(n, size)` pushes, oldest first. */
    method ToArray() returns (r: seq<T>)
      requires Valid()
      ensures r == LastN(pushed, buffer.Length)
    {
      if !filled {
        return buffer[..index];
      }
      return buffer[index..] + buffer[..index];
    }

    function Length(): (n: nat)
      requires Valid()
      reads Repr()
      ensures n == Min(|pushed|, buffer.Length)
    {
      if filled then buffer.Length else index
    }
  }

  /** A size that is not positive is refused. */
  method Create<T(0)>(size: int) returns (r: Option<CircularBuffer<T>>)
    ensures r.Some? <==> 0 < size
    ensures r.Some? ==> fresh(r.value) && r.value.Valid() && fresh(r.value.Repr()) && r.value.pushed == [] && r.value.buffer.Length == size
  {
    if size <= 0 {
      return None;
    }
    var b := new CircularBuffer<T>(size);
    return Some(b);
  }
}
