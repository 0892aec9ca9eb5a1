// The identifier under which the JetStream adapter publishes a dead letter
// (Framework/queueclient/natsjetstream/adapter.go): a hash of stream, consumer
// and sequence, separated by NUL bytes.

module DeadLetterIds {
  import opened Decimals

  type Name = seq<char>

  // The stream, consumer and stream sequence of a delivery.
  datatype Meta = Meta(stream: Name, consumer: Name, sequence: nat) {
    predicate Named() {
      NulFree(stream) && NulFree(consumer)
    }

    // What the adapter requires before it publishes a dead letter.
    predicate Complete() {
      stream != "" && sequence != 0
    }
  }

  // Hashing is collision-free, and the fixed prefix and the hexadecimal form
  // change nothing.
  datatype Id = Id(hashed: seq<char>)

  const NUL := 0 as char

  predicate NulFree(s: Name) {
    NUL !in s
  }

  function HashInput(m: Meta): seq<char> {
    m.stream + [NUL] + m.consumer + [NUL] + Decimal(m.sequence)
  }

  function DeadLetterId(m: Meta): Id {
    Id(HashInput(m))
  }

  // A NUL-free prefix ends at the first NUL.
  lemma FirstNulSplits(a: Name, b: Name, x: seq<char>, y: seq<char>)
    requires NulFree(a) && NulFree(b) && a + [NUL] + x == b + [NUL] + y
    ensures a == b && x == y
  {
    var whole := a + [NUL] + x;
    assert whole[|a|] == NUL && whole[|b|] == NUL;
    assert forall k :: 0 <= k < |a| ==> whole[k] == a[k] && a[k] in a;
    assert forall k :: 0 <= k < |b| ==> whole[k] == b[k] && b[k] in b;
    assert |a| == |b|;
    assert a == whole[..|a|] && b == whole[..|b|];
    assert x == whole[|a| + 1..] && y == whole[|b| + 1..];
  }

  // Names without NUL never collide.
  lemma IdIsInjective(m: Meta, n: Meta)
    requires m.Named() && n.Named() && DeadLetterId(m) == DeadLetterId(n)
    ensures m == n
  {
    var x, y := m.consumer + [NUL] + Decimal(m.sequence), n.consumer + [NUL] + Decimal(n.sequence);
    assert HashInput(m) == m.stream + [NUL] + x && HashInput(n) == n.stream + [NUL] + y;
    FirstNulSplits(m.stream, n.stream, x, y);
    FirstNulSplits(m.consumer, n.consumer, Decimal(m.sequence), Decimal(n.sequence));
    DecimalIsInvertible(m.sequence);
    DecimalIsInvertible(n.sequence);
  }

  // With a NUL in a name they can: it may as well end the name before it.
  lemma NulsCollide(a: Name, b: Name, c: Name, sequence: nat)
    ensures
      var m, n := Meta(a + [NUL] + b, c, sequence), Meta(a, b + [NUL] + c, sequence);
      m != n && DeadLetterId(m) == DeadLetterId(n)
  {
    assert |a + [NUL] + b| > |a|;
    assert (a + [NUL] + b) + [NUL] + c + [NUL] + Decimal(sequence)
        == a + [NUL] + (b + [NUL] + c) + [NUL] + Decimal(sequence);
  }

  function Nuls(s: seq<char>): nat {
    if s == [] then 0 else Nuls(s[1..]) + if s[0] == NUL then 1 else 0
  }

  lemma {:induction false} NulsAdd(a: seq<char>, b: seq<char>)
    ensures Nuls(a + b) == Nuls(a) + Nuls(b)
  {
    if a == [] {
      assert a + b == b;
    } else {
      assert (a + b)[0] == a[0] && (a + b)[1..] == a[1..] + b;
      NulsAdd(a[1..], b);
    }
  }

  lemma {:induction false} NoNuls(s: seq<char>)
    ensures Nuls(s) == 0 <==> NulFree(s)
  {
    if s != [] {
      NoNuls(s[1..]);
      assert s == [s[0]] + s[1..];
    }
  }

  // The hash input holds the NULs of the names and two more.
  lemma NulsOfInput(m: Meta)
    ensures Nuls(HashInput(m)) == Nuls(m.stream) + Nuls(m.consumer) + 2
  {
    var digits := Decimal(m.sequence);
    NulsAdd(m.stream + [NUL] + m.consumer + [NUL], digits);
    NulsAdd(m.stream + [NUL] + m.consumer, [NUL]);
    NulsAdd(m.stream + [NUL], m.consumer);
    NulsAdd(m.stream, [NUL]);
    DigitsAreNulFree(digits);
    NoNuls(digits);
  }

  lemma DigitsAreNulFree(s: seq<char>)
    requires AllDigits(s)
    ensures NulFree(s)
  {
  }

  // A source shares its identifier with no other if and only if its names are
  // free of NUL.
  lemma UniqueExactlyWithoutNul(m: Meta)
    ensures m.Named() <==> forall n :: DeadLetterId(n) == DeadLetterId(m) ==> n == m
  {
    hide HashInput;
    NoNuls(m.stream);
    NoNuls(m.consumer);
    NulsOfInput(m);
    if m.Named() {
      forall n | DeadLetterId(n) == DeadLetterId(m) ensures n == m {
        NulsOfInput(n);
        NoNuls(n.stream);
        NoNuls(n.consumer);
        IdIsInjective(n, m);
      }
    } else {
      var n := Twin(m);
    }
  }

  // Another source with the identifier of one whose names hold a NUL.
  lemma Twin(m: Meta) returns (n: Meta)
    requires !m.Named()
    ensures n != m && DeadLetterId(n) == DeadLetterId(m)
  {
    if !NulFree(m.stream) {
      var i :| 0 <= i < |m.stream| && m.stream[i] == NUL;
      var a, b := m.stream[..i], m.stream[i + 1..];
      assert m.stream == a + [NUL] + b;
      NulsCollide(a, b, m.consumer, m.sequence);
      n := Meta(a, b + [NUL] + m.consumer, m.sequence);
    } else {
      var i :| 0 <= i < |m.consumer| && m.consumer[i] == NUL;
      var b, c := m.consumer[..i], m.consumer[i + 1..];
      assert m.consumer == b + [NUL] + c;
      NulsCollide(m.stream, b, c, m.sequence);
      n := Meta(m.stream + [NUL] + b, c, m.sequence);
    }
  }
}
