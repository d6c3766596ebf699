/** Objects by key: what an object has under a name, and the order its names stand in. */
module JsonKeys {
  import opened Bytes
  import opened Json

  /** The value under a key, as an RFC 8259 object is read: the members in whatever order they stand. */
  function Get(j: Json, key: string): Option<Json>
    decreases if j.Object? then |j.members| else 0
  {
    if !j.Object? || j.members == [] then None
    else if j.members[0].key == key then Some(j.members[0].value)
    else Get(Object(j.members[1..]), key)
  }

  /** The value a printed object has under a key, for whoever reads its text. */
  function Under(text: string, key: string): Option<Json> {
    match ReadValue(text)
    case Fail => None
    case Done(j, _) => Get(j, key)
  }

  predicate DiffersAt(a: string, b: string, k: nat) {
    && k <= |a| && k < |b| && (forall i | 0 <= i < k :: a[i] == b[i])
    && (k == |a| || a[k] < b[k])
  }

  /** Lexicographic order of names, character by character. */
  ghost predicate Precedes(a: string, b: string) {
    exists k: nat :: DiffersAt(a, b, k)
  }

  ghost predicate Rising(ms: seq<Member>) {
    forall i, j | 0 <= i < j < |ms| :: Precedes(ms[i].key, ms[j].key)
  }

  lemma PrecedesTransitive(a: string, b: string, c: string)
    requires Precedes(a, b) && Precedes(b, c)
    ensures Precedes(a, c)
  {
    var k: nat :| DiffersAt(a, b, k);
    var l: nat :| DiffersAt(b, c, l);
    assert DiffersAt(a, c, if k < l then k else l);
  }

  lemma PrecedesDiffers(a: string, b: string)
    requires Precedes(a, b)
    ensures a != b
  {
  }

  lemma RisingStep(first: Member, rest: seq<Member>)
    requires Rising(rest) && (rest != [] ==> Precedes(first.key, rest[0].key))
    ensures Rising([first] + rest)
  {
    hide Precedes;
    var all := [first] + rest;
    forall i, j | 0 <= i < j < |all| ensures Precedes(all[i].key, all[j].key) {
      if i == 0 && j > 1 {
        PrecedesTransitive(first.key, rest[0].key, rest[j - 1].key);
      }
    }
  }

  /** It is enough that each key precedes the next. */
  lemma {:induction false} AdjacentRise(ms: seq<Member>)
    requires forall i | 0 <= i < |ms| - 1 :: Precedes(ms[i].key, ms[i + 1].key)
    ensures Rising(ms)
  {
    hide Precedes;
    if ms != [] {
      AdjacentRise(ms[1..]);
      RisingStep(ms[0], ms[1..]);
      assert ms == [ms[0]] + ms[1..];
    }
  }

  /** In an object whose keys rise, every member is found under its key. */
  lemma {:induction false} MemberFound(ms: seq<Member>, m: Member)
    requires Rising(ms) && m in ms
    ensures Get(Object(ms), m.key) == Some(m.value)
  {
    hide Precedes;
    if ms[0] != m {
      var i :| 0 <= i < |ms| && ms[i] == m;
      PrecedesDiffers(ms[0].key, ms[i].key);
      assert m in ms[1..];
      MemberFound(ms[1..], m);
    }
  }

  /** Leaving a member out keeps the order. */
  lemma LeftOut(a: seq<Member>, m: Member, b: seq<Member>)
    requires Rising(a + ([m] + b))
    ensures Rising(a + b)
  {
    hide Precedes;
    var all, less := a + ([m] + b), a + b;
    forall i, j | 0 <= i < j < |less| ensures Precedes(less[i].key, less[j].key) {
      var i', j' := if i < |a| then i else i + 1, if j < |a| then j else j + 1;
      assert Precedes(all[i'].key, all[j'].key);
    }
  }

  lemma {:induction false} NotFound(ms: seq<Member>, key: string)
    requires forall i | 0 <= i < |ms| :: ms[i].key != key
    ensures Get(Object(ms), key) == None
  {
    if ms != [] {
      NotFound(ms[1..], key);
    }
  }

  /** What is in the object is what a reader of its text finds. */
  lemma UnderPrinted(j: Json, key: string)
    requires WellKeyed(j)
    ensures Under(Render(j), key) == Get(j, key)
  {
    hide Render, ReadValue, WellKeyed;
    RoundTrip(j, "");
    assert Render(j) + "" == Render(j);
  }

  /** All of them at once. */
  lemma AllFound(ms: seq<Member>)
    requires Rising(ms)
    ensures forall i | 0 <= i < |ms| :: Get(Object(ms), ms[i].key) == Some(ms[i].value)
  {
    hide Get, Rising;
    forall i | 0 <= i < |ms| ensures Get(Object(ms), ms[i].key) == Some(ms[i].value) {
      MemberFound(ms, ms[i]);
    }
  }

  lemma OneUnderKey(ms: seq<Member>, x: Member, y: Member)
    requires Rising(ms) && x in ms && y in ms && x.key == y.key
    ensures x == y
  {
    hide Precedes;
    var i :| 0 <= i < |ms| && ms[i] == x;
    var j :| 0 <= j < |ms| && ms[j] == y;
    if i < j {
      PrecedesDiffers(ms[i].key, ms[j].key);
    } else if j < i {
      PrecedesDiffers(ms[j].key, ms[i].key);
    }
  }

  /** What an object leaves out of a longer one is not found in it. */
  lemma Absent(full: seq<Member>, m: Member, less: seq<Member>)
    requires Rising(full) && m in full && m !in less && forall x <- less :: x in full
    ensures Get(Object(less), m.key) == None
  {
    hide Rising, Get;
    forall i | 0 <= i < |less| ensures less[i].key != m.key {
      if less[i].key == m.key {
        OneUnderKey(full, less[i], m);
      }
    }
    NotFound(less, m.key);
  }

  /** Members with the given keys and values. */
  function Named(keys: seq<string>, values: seq<Json>): (ms: seq<Member>)
    requires |keys| == |values|
    ensures |ms| == |keys| && forall i | 0 <= i < |keys| :: ms[i] == Member(keys[i], values[i])
  {
    seq(|keys|, i requires 0 <= i < |keys| => Member(keys[i], values[i]))
  }
}
