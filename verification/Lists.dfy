/** Removing an element from a sequence, and summing a weight over one. */
module Lists {
  function Without<T>(s: seq<T>, i: nat): (r: seq<T>)
    requires i < |s|
  {
    s[..i] + s[i + 1..]
  }

  function Weigh<T>(s: seq<T>, w: T -> nat): nat {
    if s == [] then 0 else Weigh(s[..|s| - 1], w) + w(s[|s| - 1])
  }

  lemma WeighOne<T>(s: seq<T>, x: T, w: T -> nat)
    ensures Weigh(s + [x], w) == Weigh(s, w) + w(x)
  {
    assert (s + [x])[..|s|] == s;
  }

  lemma {:induction false} WeighJoin<T>(a: seq<T>, b: seq<T>, w: T -> nat)
    ensures Weigh(a + b, w) == Weigh(a, w) + Weigh(b, w)
  {
    if b == [] {
      assert a + b == a;
    } else {
      assert (a + b)[..|a + b| - 1] == a + b[..|b| - 1];
      WeighJoin(a, b[..|b| - 1], w);
    }
  }

  lemma WeighInsert<T>(a: seq<T>, x: T, b: seq<T>, w: T -> nat)
    ensures Weigh(a + [x] + b, w) == Weigh(a + b, w) + w(x)
  {
    hide Weigh;
    WeighJoin(a + [x], b, w);
    WeighOne(a, x, w);
    WeighJoin(a, b, w);
  }

  lemma WeighWithout<T>(s: seq<T>, i: nat, w: T -> nat)
    requires i < |s|
    ensures Weigh(s, w) == Weigh(Without(s, i), w) + w(s[i])
  {
    hide Weigh;
    WeighInsert(s[..i], s[i], s[i + 1..], w);
    assert s[..i] + [s[i]] + s[i + 1..] == s;
  }

  lemma {:induction false} WeighSame<T>(a: seq<T>, b: seq<T>, w: T -> nat)
    requires |a| == |b| && forall i :: 0 <= i < |a| ==> w(a[i]) == w(b[i])
    ensures Weigh(a, w) == Weigh(b, w)
  {
    if a != [] {
      WeighSame(a[..|a| - 1], b[..|b| - 1], w);
    }
  }

  /** How many elements have key x. */
  function Tally<T>(s: seq<T>, key: T -> nat, x: nat): nat {
    if s == [] then 0 else Tally(s[..|s| - 1], key, x) + if key(s[|s| - 1]) == x then 1 else 0
  }

  lemma TallyOne<T>(s: seq<T>, e: T, key: T -> nat, x: nat)
    ensures Tally(s + [e], key, x) == Tally(s, key, x) + if key(e) == x then 1 else 0
  {
    assert (s + [e])[..|s|] == s;
  }

  lemma {:induction false} TallyJoin<T>(a: seq<T>, b: seq<T>, key: T -> nat, x: nat)
    ensures Tally(a + b, key, x) == Tally(a, key, x) + Tally(b, key, x)
  {
    if b == [] {
      assert a + b == a;
    } else {
      assert (a + b)[..|a + b| - 1] == a + b[..|b| - 1];
      TallyJoin(a, b[..|b| - 1], key, x);
    }
  }

  lemma TallyInsert<T>(a: seq<T>, e: T, b: seq<T>, key: T -> nat, x: nat)
    ensures Tally(a + [e] + b, key, x) == Tally(a + b, key, x) + if key(e) == x then 1 else 0
  {
    hide Tally;
    TallyJoin(a + [e], b, key, x);
    TallyOne(a, e, key, x);
    TallyJoin(a, b, key, x);
  }

  lemma TallyWithout<T>(s: seq<T>, i: nat, key: T -> nat, x: nat)
    requires i < |s|
    ensures Tally(s, key, x) == Tally(Without(s, i), key, x) + if key(s[i]) == x then 1 else 0
  {
    hide Tally;
    TallyInsert(s[..i], s[i], s[i + 1..], key, x);
    assert s[..i] + [s[i]] + s[i + 1..] == s;
  }

  /** Equal keys in equal places. */
  lemma {:induction false} TallySame<T>(a: seq<T>, b: seq<T>, key: T -> nat, x: nat)
    requires |a| == |b| && forall i :: 0 <= i < |a| ==> key(a[i]) == key(b[i])
    ensures Tally(a, key, x) == Tally(b, key, x)
  {
    if a != [] {
      TallySame(a[..|a| - 1], b[..|b| - 1], key, x);
    }
  }
}
