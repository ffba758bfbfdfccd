/** The moving average of libfranka/examples/motion_with_control.cpp over a strided ring buffer. */
module VelocityFilter {

  const JOINTS := 7

  function Sum(s: seq<real>): real { if s == [] then 0.0 else Sum(s[..|s| - 1]) + s[|s| - 1] }

  function Zeros(n: nat): seq<real> { seq(n, _ => 0.0) }

  // The last n of the samples, with zeros before the first.
  function Window(n: nat, samples: seq<real>): (w: seq<real>)
    ensures |w| == n
  {
    (Zeros(n) + samples)[|samples|..]
  }

  function Mean(n: nat, samples: seq<real>): real
    requires n > 0
  {
    Sum(Window(n, samples)) / n as real
  }

  lemma {:induction false} SumOfConcatenation(a: seq<real>, b: seq<real>)
    ensures Sum(a + b) == Sum(a) + Sum(b)
  {
    if b == [] {
      assert a + b == a;
    } else {
      var n := |b| - 1;
      SumOfConcatenation(a, b[..n]);
      assert (a + b)[..|a + b| - 1] == a + b[..n];
    }
  }

  // A window split at the oldest entry and put together the other way round.
  function Rotated(w: seq<real>, position: nat): seq<real>
    requires position <= |w|
  {
    w[|w| - position..] + w[..|w| - position]
  }

  lemma RotationKeepsSum(w: seq<real>, position: nat)
    requires position <= |w|
    ensures Sum(Rotated(w, position)) == Sum(w)
  {
    var k := |w| - position;
    SumOfConcatenation(w[k..], w[..k]);
    SumOfConcatenation(w[..k], w[k..]);
    assert w[..k] + w[k..] == w;
  }

  // A new sample moves the window on by one.
  lemma WindowMoves(n: nat, samples: seq<real>, x: real)
    requires n > 0
    ensures Window(n, samples + [x]) == Window(n, samples)[1..] + [x]
  {
    var z := Zeros(n);
    assert z + (samples + [x]) == (z + samples) + [x];
  }

  // So it moves the mean by its share of the difference to the sample that leaves.
  lemma MeanMoves(n: nat, samples: seq<real>, x: real)
    requires n > 0
    ensures Mean(n, samples + [x]) == Mean(n, samples) + (x - Window(n, samples)[0]) / n as real
  {
    var w := Window(n, samples);
    WindowMoves(n, samples, x);
    SumOfConcatenation(w[1..], [x]);
    SumOfConcatenation([w[0]], w[1..]);
    assert [w[0]] + w[1..] == w;
    SumOfOne(x);
    SumOfOne(w[0]);
    assert Sum(w[1..] + [x]) == Sum(w) + (x - w[0]);
    ShareOfSum(Sum(w), x - w[0], n as real);
  }

  lemma SumOfOne(x: real)
    ensures Sum([x]) == x
  {
    assert [x][..0] == [];
  }

  lemma ShareOfSum(a: real, b: real, n: real)
    requires n != 0.0
    ensures (a + b) / n == a / n + b / n
  {
  }

  // Overwriting the oldest entry and moving the position rotates the new window.
  lemma OverwriteRotates(w: seq<real>, position: nat, x: real, next: nat)
    requires position < |w| && next == if position + 1 == |w| then 0 else position + 1
    ensures Rotated(w, position)[position := x] == Rotated(w[1..] + [x], next)
  {
    var n, v := |w|, w[1..] + [x];
    var k := n - position;
    if position + 1 < n {
      assert v[k - 1..] == w[k..] + [x];
      assert v[..k - 1] == w[1..k];
    } else {
      assert v[n..] == [] && v[..n] == v;
    }
  }

  lemma NextPosition(position: nat, n: nat)
    requires position < n
    ensures (position + 1) % n == if position + 1 == n then 0 else position + 1
  {
  }

  class Controller {
    const size: nat
    const buffer: array<real>
    var position: nat
    ghost var samples: seq<seq<real>>

    // The samples of one joint, oldest first.
    ghost function Column(i: nat): seq<real>
      reads this
      requires i < JOINTS && forall s :: s in samples ==> |s| == JOINTS
    {
      seq(|samples|, k requires 0 <= k < |samples| && forall s :: s in samples ==> |s| == JOINTS reads this =>
                       samples[k][i])
    }

    // The entries of one joint in the buffer.
    ghost function Slots(i: nat): (s: seq<real>)
      reads this, buffer
      requires i < JOINTS && buffer.Length == JOINTS * size
      ensures |s| == size
    {
      seq(size, k requires 0 <= k < size && buffer.Length == JOINTS * size reads this, buffer => buffer[JOINTS * k + i])
    }

    ghost predicate Valid()
      reads this, buffer
    {
      && size > 0 && buffer.Length == JOINTS * size && position < size
      && (forall s :: s in samples ==> |s| == JOINTS)
      && (forall i :: 0 <= i < JOINTS ==> Slots(i) == Rotated(Window(size, Column(i)), position))
    }

    constructor (size: nat)
      requires size > 0
      ensures Valid() && this.size == size && samples == [] && fresh(buffer)
    {
      this.size, position, samples := size, 0, [];
      buffer := new real[JOINTS * size](_ => 0.0);
      new;
      forall i | 0 <= i < JOINTS ensures Slots(i) == Rotated(Window(size, Column(i)), position) {
        assert Column(i) == [];
        assert Slots(i) == Zeros(size);
        assert Zeros(size) + [] == Zeros(size);
      }
    }

    method UpdateDQFilter(dq: seq<real>)
      requires Valid() && |dq| == JOINTS
      modifies this`position, this`samples, buffer
      ensures Valid() && samples == old(samples) + [dq] && position == (old(position) + 1) % size
    {
      WriteSlot(dq);
      position := (position + 1) % size;
      samples := samples + [dq];
      hide Window, Rotated;
      NextPosition(old(position), size);
      forall i | 0 <= i < JOINTS ensures Slots(i) == Rotated(Window(size, Column(i)), position) {
        assert Column(i) == old(Column(i)) + [dq[i]];
        WindowMoves(size, old(Column(i)), dq[i]);
        OverwriteRotates(Window(size, old(Column(i))), old(position), dq[i], position);
      }
    }

    // The loop over the joints.
    method WriteSlot(dq: seq<real>)
      requires |dq| == JOINTS && position < size && buffer.Length == JOINTS * size
      modifies buffer
      ensures forall i :: 0 <= i < JOINTS ==> Slots(i) == old(Slots(i))[position := dq[i]]
    {
      for i := 0 to JOINTS
        invariant forall k :: 0 <= k < buffer.Length ==>
                    buffer[k] == if JOINTS * position <= k < JOINTS * position + i
                                 then dq[k - JOINTS * position] else old(buffer[k])
      {
        buffer[position * JOINTS + i] := dq[i];
      }
    }

    // The filtered velocity of a joint is the mean of its last samples, for every
    // filter size and any number of updates.
    method GetDQFiltered(index: nat) returns (value: real)
      requires Valid() && index < JOINTS
      ensures value == Mean(size, Column(index))
    {
      value := 0.0;
      var i := index;
      ghost var k := 0;
      while i < JOINTS * size
        invariant 0 <= k <= size && i == index + JOINTS * k
        invariant value == Sum(Slots(index)[..k])
        decreases JOINTS * size - i
      {
        value := value + buffer[i];
        assert Slots(index)[..k + 1][..k] == Slots(index)[..k];
        i, k := i + JOINTS, k + 1;
      }
      assert Slots(index)[..k] == Slots(index);
      RotationKeepsSum(Window(size, Column(index)), position);
      value := value / size as real;
    }
  }
}
