/**
 JSON values with objects as sequences of pairs, their canonical form (keys sorted at every level) and
 the depth check. The canonical form is a true normal form for equality up to key order.
 */
module Json {
  datatype Json =
    | Null
    | Bool(b: bool)
    | Number(text: string)
    | Str(s: string)
    | Array(items: seq<Json>)
    | Object(fields: seq<Field>)

  datatype Field = Field(key: string, value: Json)

  ghost predicate DistinctKeys(fs: seq<Field>) {
    forall i, j :: 0 <= i < j < |fs| ==> fs[i].key != fs[j].key
  }

  /** Keys are distinct within every object, as section 4 of RFC 8259 asks and a map guarantees. */
  ghost predicate WellFormed(v: Json) {
    match v
    case Array(items) => forall i :: 0 <= i < |items| ==> WellFormed(items[i])
    case Object(fields) => DistinctKeys(fields) && forall i :: 0 <= i < |fields| ==> WellFormed(fields[i].value)
    case _ => true
  }

  // ----- Order of keys -----

  /** Lexicographic order; on UTF-8 text comparing bytes and comparing code points agree. */
  predicate Le(a: string, b: string) {
    a == "" || (b != "" && (a[0] < b[0] || (a[0] == b[0] && Le(a[1..], b[1..]))))
  }

  lemma {:induction false} LeTotal(a: string, b: string)
    ensures Le(a, b) || Le(b, a)
  {
    if a != "" && b != "" { LeTotal(a[1..], b[1..]); }
  }

  lemma {:induction false} LeAntisymmetric(a: string, b: string)
    requires Le(a, b) && Le(b, a)
    ensures a == b
  {
    if a != "" {
      LeAntisymmetric(a[1..], b[1..]);
      assert a == [a[0]] + a[1..] && b == [b[0]] + b[1..];
    }
  }

  lemma {:induction false} LeTransitive(a: string, b: string, c: string)
    requires Le(a, b) && Le(b, c)
    ensures Le(a, c)
  {
    if a != "" && a[0] == b[0] == c[0] { LeTransitive(a[1..], b[1..], c[1..]); }
  }

  /** One text comes before another where they first differ, or is its beginning. */
  ghost predicate Precedes(a: string, b: string) {
    a <= b || exists i :: 0 <= i < |a| && i < |b| && a[..i] == b[..i] && a[i] < b[i]
  }

  lemma PrecedesTail(a: string, b: string)
    requires a != "" && b != "" && a[0] == b[0]
    ensures Precedes(a, b) <==> Precedes(a[1..], b[1..])
  {
    var x, y := a[1..], b[1..];
    if i :| 0 <= i < |a| && i < |b| && a[..i] == b[..i] && a[i] < b[i] {
      assert x[..i - 1] == a[..i][1..] && y[..i - 1] == b[..i][1..];
      assert x[i - 1] < y[i - 1];
    }
    if i :| 0 <= i < |x| && i < |y| && x[..i] == y[..i] && x[i] < y[i] {
      assert a[..i + 1] == [a[0]] + x[..i] && b[..i + 1] == [b[0]] + y[..i];
      assert a[i + 1] < b[i + 1];
    }
    assert a == [a[0]] + x && b == [b[0]] + y;
    assert a <= b <==> x <= y;
  }

  /** The order of keys is alphabetical, smaller characters first. */
  lemma {:induction false} LeIsAlphabetical(a: string, b: string)
    ensures Le(a, b) <==> Precedes(a, b)
  {
    if a != "" && b != "" {
      if a[0] == b[0] {
        PrecedesTail(a, b);
        LeIsAlphabetical(a[1..], b[1..]);
      } else if a[0] < b[0] {
        assert a[..0] == b[..0];
      } else {
        forall i | 0 < i < |a| && i < |b| ensures a[..i] != b[..i] { assert a[..i][0] != b[..i][0]; }
      }
    }
  }

  ghost predicate Sorted(fs: seq<Field>) {
    forall i, j :: 0 <= i < j < |fs| ==> Le(fs[i].key, fs[j].key)
  }

  // ----- Sorting -----

  function Insert(f: Field, fs: seq<Field>): (r: seq<Field>)
    ensures multiset(r) == multiset(fs) + multiset{f}
  {
    if fs == [] || Le(f.key, fs[0].key) then [f] + fs
    else
      assert fs == [fs[0]] + fs[1..];
      [fs[0]] + Insert(f, fs[1..])
  }

  /** The stable sort by key. */
  function Sort(fs: seq<Field>): (r: seq<Field>)
    ensures multiset(r) == multiset(fs)
    ensures |r| == |fs|
    ensures forall f :: f in r <==> f in fs
  {
    if fs == [] then []
    else
      assert fs == [fs[0]] + fs[1..];
      var r := Insert(fs[0], Sort(fs[1..]));
      assert |multiset(r)| == |multiset(fs)|;
      assert forall f :: f in r <==> f in multiset(r);
      r
  }

  lemma {:induction false} InsertKeepsSorted(f: Field, fs: seq<Field>)
    requires Sorted(fs)
    ensures Sorted(Insert(f, fs))
  {
    if fs != [] {
      if Le(f.key, fs[0].key) {
        forall j | 0 <= j < |fs| ensures Le(f.key, fs[j].key) {
          if j > 0 { LeTransitive(f.key, fs[0].key, fs[j].key); }
        }
      } else {
        LeTotal(f.key, fs[0].key);
        InsertKeepsSorted(f, fs[1..]);
        var r := Insert(f, fs[1..]);
        forall j | 0 <= j < |r| ensures Le(fs[0].key, r[j].key) {
          assert r[j] in multiset(r);
          assert r[j] == f || r[j] in fs[1..];
        }
      }
    }
  }

  lemma {:induction false} SortSorts(fs: seq<Field>)
    ensures Sorted(Sort(fs))
  {
    if fs != [] {
      SortSorts(fs[1..]);
      InsertKeepsSorted(fs[0], Sort(fs[1..]));
    }
  }

  lemma {:induction false} MultisetDistinct(r: seq<Field>, fs: seq<Field>)
    requires multiset(r) == multiset(fs) && DistinctKeys(fs)
    ensures DistinctKeys(r)
  {
    forall i, j | 0 <= i < j < |r| ensures r[i].key != r[j].key {
      if r[i].key == r[j].key {
        assert r[i] in multiset(fs) && r[j] in multiset(fs);
        assert r[i] == r[j];
        TwiceInMultiset(r, i, j);
        OnceInDistinct(fs, r[i]);
      }
    }
  }

  lemma TwiceInMultiset(r: seq<Field>, i: nat, j: nat)
    requires i < j < |r| && r[i] == r[j]
    ensures multiset(r)[r[i]] >= 2
  {
    assert r == r[..i] + [r[i]] + r[i + 1..j] + [r[j]] + r[j + 1..];
  }

  lemma {:induction false} OnceInDistinct(fs: seq<Field>, f: Field)
    requires DistinctKeys(fs)
    ensures multiset(fs)[f] <= 1
  {
    if fs != [] {
      OnceInDistinct(fs[1..], f);
      assert fs == [fs[0]] + fs[1..];
      if fs[0] == f { assert f !in fs[1..]; }
    }
  }

  /** Strictly sorted fields with the same keys have their keys in the same places. */
  lemma {:induction false} SameKeysSamePlaces(a: seq<Field>, b: seq<Field>)
    requires Sorted(a) && Sorted(b) && DistinctKeys(a) && DistinctKeys(b)
    requires forall i :: 0 <= i < |a| ==> HasKey(b, a[i].key)
    requires forall i :: 0 <= i < |b| ==> HasKey(a, b[i].key)
    ensures |a| == |b| && forall i :: 0 <= i < |a| ==> a[i].key == b[i].key
  {
    if a == [] || b == [] {
      assert a != [] ==> HasKey(b, a[0].key);
      assert b != [] ==> HasKey(a, b[0].key);
    } else {
      assert a[0].key == b[0].key by {
        assert HasKey(b, a[0].key) && HasKey(a, b[0].key);
        if a[0].key != b[0].key { LeAntisymmetric(a[0].key, b[0].key); }
      }
      forall i | 0 <= i < |a[1..]| ensures HasKey(b[1..], a[1..][i].key) { TailHasKey(b, a[i + 1].key); }
      forall i | 0 <= i < |b[1..]| ensures HasKey(a[1..], b[1..][i].key) { TailHasKey(a, b[i + 1].key); }
      SameKeysSamePlaces(a[1..], b[1..]);
      forall i | 0 <= i < |a| ensures a[i].key == b[i].key {
        if i > 0 { assert a[i] == a[1..][i - 1] && b[i] == b[1..][i - 1]; }
      }
    }
  }

  ghost predicate HasKey(fs: seq<Field>, key: string) {
    exists j :: 0 <= j < |fs| && fs[j].key == key
  }

  lemma TailHasKey(fs: seq<Field>, key: string)
    requires HasKey(fs, key) && fs != [] && fs[0].key != key
    ensures HasKey(fs[1..], key)
  {
    var j :| 0 <= j < |fs| && fs[j].key == key;
    assert fs[1..][j - 1].key == key;
  }

  // ----- Canonical form -----

  /** `canonicalize_value`. */
  function Canonicalize(v: Json): Json {
    match v
    case Array(items) => Array(seq(|items|, i requires 0 <= i < |items| => Canonicalize(items[i])))
    case Object(fields) =>
      var sorted := Sort(fields);
      Object(seq(|sorted|, i requires 0 <= i < |sorted| =>
                             assert sorted[i] in fields;
                             Field(sorted[i].key, Canonicalize(sorted[i].value))))
    case _ => v
  }

  /** Equal up to the order of keys, at every level. */
  ghost predicate Same(v: Json, w: Json)
    decreases v, 2
  {
    match v
    case Array(items) =>
      w.Array? && |w.items| == |items| && forall i :: 0 <= i < |items| ==> Same(items[i], w.items[i])
    case Object(fields) => w.Object? && Paired(fields, w.fields)
    case _ => v == w
  }

  /** Every field on either side has a twin on the other. */
  ghost predicate Paired(fs: seq<Field>, gs: seq<Field>)
    decreases fs, 2
  {
    && (forall i {:trigger HasTwin(fs[i], gs)} :: 0 <= i < |fs| ==> HasTwin(fs[i], gs))
    && (forall j {:trigger IsTwin(fs, gs[j])} :: 0 <= j < |gs| ==> IsTwin(fs, gs[j]))
  }

  ghost predicate Twin(f: Field, g: Field)
    decreases f, 0
  {
    f.key == g.key && Same(f.value, g.value)
  }

  ghost predicate HasTwin(f: Field, gs: seq<Field>)
    decreases f, 1
  {
    exists j :: 0 <= j < |gs| && Twin(f, gs[j])
  }

  ghost predicate IsTwin(fs: seq<Field>, g: Field)
    decreases fs, 1
  {
    exists i :: 0 <= i < |fs| && Twin(fs[i], g)
  }

  lemma SortedObject(fields: seq<Field>)
    requires DistinctKeys(fields)
    ensures Sorted(Sort(fields)) && DistinctKeys(Sort(fields))
  {
    SortSorts(fields);
    MultisetDistinct(Sort(fields), fields);
  }

  lemma SortedPosition(fs: seq<Field>, f: Field) returns (i: nat)
    requires f in fs
    ensures i < |Sort(fs)| && Sort(fs)[i] == f
  {
    i :| i < |Sort(fs)| && Sort(fs)[i] == f;
  }

  lemma OriginalPosition(fs: seq<Field>, i: nat) returns (k: nat)
    requires i < |Sort(fs)|
    ensures k < |fs| && fs[k] == Sort(fs)[i]
  {
    assert Sort(fs)[i] in fs;
    k :| k < |fs| && fs[k] == Sort(fs)[i];
  }

  lemma TwinOf(fs: seq<Field>, gs: seq<Field>, i: nat) returns (j: nat)
    requires i < |Sort(fs)| && Paired(fs, gs)
    ensures j < |Sort(gs)| && Twin(Sort(fs)[i], Sort(gs)[j]) && Sort(gs)[j].key == Sort(fs)[i].key
  {
    var k := OriginalPosition(fs, i);
    assert HasTwin(fs[k], gs);
    var m :| 0 <= m < |gs| && Twin(fs[k], gs[m]);
    j := SortedPosition(gs, gs[m]);
  }

  lemma TwinFor(fs: seq<Field>, gs: seq<Field>, j: nat) returns (i: nat)
    requires j < |Sort(gs)| && Paired(fs, gs)
    ensures i < |Sort(fs)| && Sort(fs)[i].key == Sort(gs)[j].key
  {
    var k := OriginalPosition(gs, j);
    assert IsTwin(fs, gs[k]);
    var m :| 0 <= m < |fs| && Twin(fs[m], gs[k]);
    i := SortedPosition(fs, fs[m]);
  }

  /** Sorting puts twins side by side. */
  lemma SortedTwins(fs: seq<Field>, gs: seq<Field>)
    requires DistinctKeys(fs) && DistinctKeys(gs) && Paired(fs, gs)
    ensures |Sort(fs)| == |Sort(gs)|
    ensures forall i :: 0 <= i < |Sort(fs)| ==> Twin(Sort(fs)[i], Sort(gs)[i])
  {
    SortedKeysAgree(fs, gs);
    forall i: nat | i < |Sort(fs)| ensures Twin(Sort(fs)[i], Sort(gs)[i]) {
      var j := TwinOf(fs, gs, i);
      SamePlace(gs, i, j);
    }
  }

  lemma SamePlace(gs: seq<Field>, i: nat, j: nat)
    requires DistinctKeys(gs) && i < |Sort(gs)| && j < |Sort(gs)| && Sort(gs)[i].key == Sort(gs)[j].key
    ensures i == j
  {
    MultisetDistinct(Sort(gs), gs);
  }

  lemma SortedKeysAgree(fs: seq<Field>, gs: seq<Field>)
    requires DistinctKeys(fs) && DistinctKeys(gs) && Paired(fs, gs)
    ensures |Sort(fs)| == |Sort(gs)|
    ensures forall i :: 0 <= i < |Sort(fs)| ==> Sort(fs)[i].key == Sort(gs)[i].key
  {
    var a, b := Sort(fs), Sort(gs);
    SortedObject(fs);
    SortedObject(gs);
    forall i | 0 <= i < |a| ensures HasKey(b, a[i].key) { var j := TwinOf(fs, gs, i); }
    forall i | 0 <= i < |b| ensures HasKey(a, b[i].key) { var j := TwinFor(fs, gs, i); }
    SameKeysSamePlaces(a, b);
  }

  /** And twins side by side after sorting were twins before. */
  lemma UnsortedTwins(fs: seq<Field>, gs: seq<Field>)
    requires |Sort(fs)| == |Sort(gs)|
    requires forall i :: 0 <= i < |Sort(fs)| ==> Twin(Sort(fs)[i], Sort(gs)[i])
    ensures Paired(fs, gs)
  {
    forall k | 0 <= k < |fs| ensures HasTwin(fs[k], gs) {
      var i := SortedPosition(fs, fs[k]);
      var m := OriginalPosition(gs, i);
      assert Twin(fs[k], gs[m]);
    }
    forall k | 0 <= k < |gs| ensures IsTwin(fs, gs[k]) {
      var i := SortedPosition(gs, gs[k]);
      var m := OriginalPosition(fs, i);
      assert Twin(fs[m], gs[k]);
    }
  }

  lemma CanonicalMember(fs: seq<Field>, i: nat)
    requires i < |Sort(fs)|
    ensures Canonicalize(Object(fs)).Object? && |Canonicalize(Object(fs)).fields| == |Sort(fs)|
    ensures Canonicalize(Object(fs)).fields[i] == Field(Sort(fs)[i].key, Canonicalize(Sort(fs)[i].value))
  {
  }

  lemma EqualMembers(fs: seq<Field>, gs: seq<Field>)
    requires |Sort(fs)| == |Sort(gs)|
    requires forall i :: 0 <= i < |Sort(fs)| ==>
                           Sort(fs)[i].key == Sort(gs)[i].key
                           && Canonicalize(Sort(fs)[i].value) == Canonicalize(Sort(gs)[i].value)
    ensures Canonicalize(Object(fs)) == Canonicalize(Object(gs))
  {
    var c, d := Canonicalize(Object(fs)).fields, Canonicalize(Object(gs)).fields;
    forall i | 0 <= i < |c| ensures c[i] == d[i] {
      CanonicalMember(fs, i);
      CanonicalMember(gs, i);
    }
    assert c == d;
  }

  /** Same values have the same canonical form. */
  lemma {:induction false} SameIsCanonicallyEqual(v: Json, w: Json)
    requires WellFormed(v) && WellFormed(w) && Same(v, w)
    ensures Canonicalize(v) == Canonicalize(w)
  {
    match v {
      case Array(items) =>
        forall i | 0 <= i < |items| ensures Canonicalize(items[i]) == Canonicalize(w.items[i]) {
          SameIsCanonicallyEqual(items[i], w.items[i]);
        }
      case Object(fields) =>
        SortedTwins(fields, w.fields);
        var a, b := Sort(fields), Sort(w.fields);
        forall i | 0 <= i < |a|
          ensures a[i].key == b[i].key && Canonicalize(a[i].value) == Canonicalize(b[i].value)
        {
          assert Twin(a[i], b[i]);
          var k := OriginalPosition(fields, i);
          var m := OriginalPosition(w.fields, i);
          SameIsCanonicallyEqual(fields[k].value, w.fields[m].value);
        }
        EqualMembers(fields, w.fields);
      case _ =>
    }
  }

  /** Values with the same canonical form are the same. */
  lemma {:induction false} CanonicallyEqualIsSame(v: Json, w: Json)
    requires Canonicalize(v) == Canonicalize(w)
    ensures Same(v, w)
  {
    match v {
      case Array(items) =>
        forall i | 0 <= i < |items| ensures Same(items[i], w.items[i]) {
          assert Canonicalize(v).items[i] == Canonicalize(w).items[i];
          CanonicallyEqualIsSame(items[i], w.items[i]);
        }
      case Object(fields) =>
        var a, b := Sort(fields), Sort(w.fields);
        assert |Canonicalize(v).fields| == |a| && |Canonicalize(w).fields| == |b|;
        forall i | 0 <= i < |a| ensures Twin(a[i], b[i]) {
          assert Canonicalize(v).fields[i] == Canonicalize(w).fields[i];
          var k := OriginalPosition(fields, i);
          CanonicallyEqualIsSame(fields[k].value, b[i].value);
        }
        UnsortedTwins(fields, w.fields);
      case _ =>
    }
  }

  /** A true normal form: equal canonical forms mean equal up to key order, and nothing less. */
  lemma NormalForm(v: Json, w: Json)
    requires WellFormed(v) && WellFormed(w)
    ensures Canonicalize(v) == Canonicalize(w) <==> Same(v, w)
  {
    if Same(v, w) { SameIsCanonicallyEqual(v, w); }
    if Canonicalize(v) == Canonicalize(w) { CanonicallyEqualIsSame(v, w); }
  }

  lemma {:induction false} CanonicalIsWellFormed(v: Json)
    requires WellFormed(v)
    ensures WellFormed(Canonicalize(v))
  {
    match v {
      case Array(items) =>
        forall i | 0 <= i < |items| ensures WellFormed(Canonicalize(items[i])) { CanonicalIsWellFormed(items[i]); }
      case Object(fields) =>
        SortedObject(fields);
        forall i | 0 <= i < |Sort(fields)| ensures WellFormed(Canonicalize(Sort(fields)[i].value)) {
          var k := OriginalPosition(fields, i);
          CanonicalIsWellFormed(fields[k].value);
        }
      case _ =>
    }
  }

  /** A value is the same as its canonical form. */
  lemma {:induction false} SameAsCanonical(v: Json)
    ensures Same(v, Canonicalize(v))
  {
    match v {
      case Array(items) =>
        forall i | 0 <= i < |items| ensures Same(items[i], Canonicalize(items[i])) { SameAsCanonical(items[i]); }
      case Object(fields) =>
        var c := Canonicalize(v).fields;
        forall k | 0 <= k < |fields| ensures HasTwin(fields[k], c) {
          var i := SortedPosition(fields, fields[k]);
          SameAsCanonical(fields[k].value);
          assert Twin(fields[k], c[i]);
        }
        forall i | 0 <= i < |c| ensures IsTwin(fields, c[i]) {
          var k := OriginalPosition(fields, i);
          SameAsCanonical(fields[k].value);
          assert Twin(fields[k], c[i]);
        }
      case _ =>
    }
  }

  // ----- Depth -----

  function Max(xs: seq<nat>): (m: nat)
    ensures forall i :: 0 <= i < |xs| ==> xs[i] <= m
    ensures m == 0 || exists i :: 0 <= i < |xs| && xs[i] == m
  {
    if xs == [] then 0
    else
      var m := Max(xs[1..]);
      assert forall i :: 1 <= i < |xs| ==> xs[i] == xs[1..][i - 1];
      if xs[0] < m then m else xs[0]
  }

  /** Nesting height: 1 for anything without members. */
  function Height(v: Json): nat {
    match v
    case Array(items) => 1 + Max(seq(|items|, i requires 0 <= i < |items| => Height(items[i])))
    case Object(fields) => 1 + Max(seq(|fields|, i requires 0 <= i < |fields| => Height(fields[i].value)))
    case _ => 1
  }

  /** `validate_depth`: true where it returns `Ok`. */
  predicate DepthOk(v: Json, depth: nat, maxDepth: nat) {
    && depth < maxDepth
    && match v
       case Array(items) => forall i :: 0 <= i < |items| ==> DepthOk(items[i], depth + 1, maxDepth)
       case Object(fields) => forall i :: 0 <= i < |fields| ==> DepthOk(fields[i].value, depth + 1, maxDepth)
       case _ => true
  }

  lemma MembersAreLower(v: Json, n: nat)
    ensures v.Array? ==> (Height(v) <= n + 1 <==> forall i :: 0 <= i < |v.items| ==> Height(v.items[i]) <= n)
    ensures v.Object? ==>
              (Height(v) <= n + 1 <==> forall i :: 0 <= i < |v.fields| ==> Height(v.fields[i].value) <= n)
  {
    match v {
      case Array(items) =>
        var hs := seq(|items|, i requires 0 <= i < |items| => Height(items[i]));
        assert forall i :: 0 <= i < |items| ==> hs[i] == Height(items[i]);
        assert Height(v) == 1 + Max(hs);
      case Object(fields) =>
        var hs := seq(|fields|, i requires 0 <= i < |fields| => Height(fields[i].value));
        assert forall i :: 0 <= i < |fields| ==> hs[i] == Height(fields[i].value);
        assert Height(v) == 1 + Max(hs);
      case _ =>
    }
  }

  /** The depth check succeeds exactly when the height fits under the limit. */
  lemma {:induction false} DepthOkIffHeight(v: Json, depth: nat, maxDepth: nat)
    ensures DepthOk(v, depth, maxDepth) <==> depth + Height(v) <= maxDepth
    decreases v
  {
    if depth < maxDepth {
      MembersAreLower(v, maxDepth - depth - 1);
      match v {
        case Array(items) =>
          forall i | 0 <= i < |items|
            ensures DepthOk(items[i], depth + 1, maxDepth) <==> depth + 1 + Height(items[i]) <= maxDepth
          {
            DepthOkIffHeight(items[i], depth + 1, maxDepth);
          }
        case Object(fields) =>
          forall i | 0 <= i < |fields|
            ensures DepthOk(fields[i].value, depth + 1, maxDepth) <==> depth + 1 + Height(fields[i].value) <= maxDepth
          {
            DepthOkIffHeight(fields[i].value, depth + 1, maxDepth);
          }
        case _ =>
      }
    }
  }

  /** Same values have the same height, so canonicalising keeps it. */
  lemma {:induction false} SameHeight(v: Json, w: Json)
    requires Same(v, w)
    ensures Height(v) == Height(w)
  {
    if v.Array? {
      forall i | 0 <= i < |v.items| ensures Height(v.items[i]) == Height(w.items[i]) {
        SameHeight(v.items[i], w.items[i]);
      }
      MembersAreLower(v, Height(w) - 1);
      MembersAreLower(w, Height(w) - 1);
      MembersAreLower(v, Height(v) - 1);
      MembersAreLower(w, Height(v) - 1);
    } else if v.Object? {
      MembersAreLower(v, Height(v) - 1);
      MembersAreLower(w, Height(w) - 1);
      forall i | 0 <= i < |v.fields| ensures Height(v.fields[i].value) <= Height(w) - 1 {
        assert HasTwin(v.fields[i], w.fields);
        var j :| 0 <= j < |w.fields| && Twin(v.fields[i], w.fields[j]);
        SameHeight(v.fields[i].value, w.fields[j].value);
      }
      forall j | 0 <= j < |w.fields| ensures Height(w.fields[j].value) <= Height(v) - 1 {
        assert IsTwin(v.fields, w.fields[j]);
        var i :| 0 <= i < |v.fields| && Twin(v.fields[i], w.fields[j]);
        SameHeight(v.fields[i].value, w.fields[j].value);
      }
      MembersAreLower(v, Height(w) - 1);
      MembersAreLower(w, Height(v) - 1);
    }
  }

  /** Canonicalising twice is canonicalising once, and the height stays. */
  lemma CanonicalizeIdempotent(v: Json)
    requires WellFormed(v)
    ensures Canonicalize(Canonicalize(v)) == Canonicalize(v) && Height(Canonicalize(v)) == Height(v)
  {
    CanonicalIsWellFormed(v);
    SameAsCanonical(v);
    SameIsCanonicallyEqual(v, Canonicalize(v));
    SameHeight(v, Canonicalize(v));
  }
}
