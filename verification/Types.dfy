/**
 Types shared by every component: peer identifiers, content identifiers, the
 machine integers of the protocol, and lists of keys read as sets.
 */
module Types {

  /** Peer identifiers are strings; the empty string stands for "no peer". */
  type PeerId = string

  const NO_PEER: PeerId := ""

  type Byte = b: int | 0 <= b < 256

  type Int32 = x: int | -0x8000_0000 <= x < 0x8000_0000

  /** A content identifier is its key string; the empty one is undefined. */
  datatype Cid = Cid(keyString: seq<Byte>) {
    predicate Defined() {
      keyString != []
    }
  }

  const UNDEF := Cid([])

  // Want types and block presence types are protobuf enums, that is, any int32.
  const WANT_BLOCK: Int32 := 0
  const WANT_HAVE: Int32 := 1
  const PRESENCE_HAVE: Int32 := 0

  datatype Option<+T> = None | Some(value: T)

  datatype Result<+T, +E> = Ok(value: T) | Err(error: E)

  // ---------- lists of keys ----------

  function Elems<T>(s: seq<T>): set<T> {
    set x | x in s
  }

  ghost predicate Distinct<T>(s: seq<T>) {
    forall i, j :: 0 <= i < j < |s| ==> s[i] != s[j]
  }

  /** `order` lists the elements of `s` once each, in some order. */
  ghost predicate IsListing<T>(order: seq<T>, s: set<T>) {
    Distinct(order) && Elems(order) == s
  }

  /** The keys of `ks` outside `known`, each at its first occurrence. */
  function FirstNew<T(==)>(ks: seq<T>, known: set<T>): seq<T> {
    if ks == [] then []
    else
      var rest := FirstNew(ks[..|ks| - 1], known);
      var last := ks[|ks| - 1];
      if last in known || last in rest then rest else rest + [last]
  }

  /** The keys of `ks` that are in `s`, repetitions kept. */
  function Keep<T(==)>(ks: seq<T>, s: set<T>): seq<T> {
    if ks == [] then []
    else
      var rest := Keep(ks[..|ks| - 1], s);
      var last := ks[|ks| - 1];
      if last in s then rest + [last] else rest
  }

  lemma {:induction false} FirstNewElems<T>(ks: seq<T>, known: set<T>)
    ensures Elems(FirstNew(ks, known)) == Elems(ks) - known
    ensures Distinct(FirstNew(ks, known))
  {
    if ks != [] {
      var init := ks[..|ks| - 1];
      FirstNewElems(init, known);
      assert ks == init + [ks[|ks| - 1]];
      assert Elems(ks) == Elems(init) + {ks[|ks| - 1]};
      var rest := FirstNew(init, known);
      assert ks[|ks| - 1] in rest <==> ks[|ks| - 1] in Elems(rest);
      assert Elems(rest + [ks[|ks| - 1]]) == Elems(rest) + {ks[|ks| - 1]};
    }
  }

  lemma {:induction false} KeepElems<T>(ks: seq<T>, s: set<T>)
    ensures Elems(Keep(ks, s)) == Elems(ks) * s
    ensures |Keep(ks, s)| <= |ks|
  {
    if ks != [] {
      var init := ks[..|ks| - 1];
      KeepElems(init, s);
      assert ks == init + [ks[|ks| - 1]];
      assert Elems(ks) == Elems(init) + {ks[|ks| - 1]};
      assert Elems(Keep(init, s) + [ks[|ks| - 1]]) == Elems(Keep(init, s)) + {ks[|ks| - 1]};
    }
  }

  /** The first occurrences of the keys of `ks` that are in `s`. */
  function FirstIn<T(==)>(ks: seq<T>, s: set<T>): seq<T> {
    FirstNew(Keep(ks, s), {})
  }

  // The equations above, in the form a loop over `ks` uses them.

  lemma WholeList<T>(ks: seq<T>)
    ensures ks[..0] == [] && ks[..|ks|] == ks
    ensures Elems(ks[..0]) == {}
  {
  }

  lemma FirstNewNone<T>(known: set<T>)
    ensures FirstNew([], known) == [] && Elems<T>([]) == {}
  {
  }

  lemma FirstInNone<T>(s: set<T>)
    ensures FirstIn([], s) == [] && Elems<T>([]) == {}
  {
  }

  lemma KeepNone<T>(s: set<T>)
    ensures Keep([], s) == [] && Elems<T>([]) == {}
  {
  }

  lemma ElemsStep<T>(ks: seq<T>, i: nat)
    requires i < |ks|
    ensures Elems(ks[..i + 1]) == Elems(ks[..i]) + {ks[i]}
  {
    assert ks[..i + 1] == ks[..i] + [ks[i]];
  }

  lemma ElemsPush<T>(ks: seq<T>, x: T)
    ensures Elems(ks + [x]) == Elems(ks) + {x}
  {
  }

  lemma DistinctPush<T>(ks: seq<T>, x: T)
    ensures Distinct(ks + [x]) <==> Distinct(ks) && x !in Elems(ks)
  {
    var longer := ks + [x];
    if Distinct(longer) {
      assert forall i :: 0 <= i < |ks| ==> ks[i] == longer[i] != longer[|ks|];
      assert forall i, j :: 0 <= i < j < |ks| ==> ks[i] == longer[i] && ks[j] == longer[j];
    }
  }

  lemma FirstNewStep<T>(ks: seq<T>, i: nat, known: set<T>)
    requires i < |ks|
    ensures var sofar := FirstNew(ks[..i], known);
            FirstNew(ks[..i + 1], known) == if ks[i] in known || ks[i] in Elems(sofar) then sofar else sofar + [ks[i]]
    ensures Elems(ks[..i + 1]) == Elems(ks[..i]) + {ks[i]}
    ensures Elems(FirstNew(ks[..i], known)) == Elems(ks[..i]) - known
  {
    var longer := ks[..i + 1];
    assert longer[..|longer| - 1] == ks[..i];
    ElemsStep(ks, i);
    FirstNewElems(ks[..i], known);
  }

  lemma KeepStep<T>(ks: seq<T>, i: nat, s: set<T>)
    requires i < |ks|
    ensures Keep(ks[..i + 1], s) == if ks[i] in s then Keep(ks[..i], s) + [ks[i]] else Keep(ks[..i], s)
    ensures Elems(ks[..i + 1]) == Elems(ks[..i]) + {ks[i]}
  {
    var longer := ks[..i + 1];
    assert longer[..|longer| - 1] == ks[..i];
    ElemsStep(ks, i);
  }

  lemma FirstInStep<T>(ks: seq<T>, i: nat, s: set<T>)
    requires i < |ks|
    ensures FirstIn(ks[..i + 1], s)
            == if ks[i] in s && ks[i] !in Elems(ks[..i]) then FirstIn(ks[..i], s) + [ks[i]] else FirstIn(ks[..i], s)
    ensures Elems(ks[..i + 1]) == Elems(ks[..i]) + {ks[i]}
  {
    KeepStep(ks, i, s);
    KeepElems(ks[..i], s);
    var kept := Keep(ks[..i], s);
    if ks[i] in s {
      var longer := kept + [ks[i]];
      assert longer[..|kept|] == kept;
      FirstNewStep(longer, |kept|, {});
      WholeList(longer);
      assert ks[i] in Elems(kept) <==> ks[i] in Elems(ks[..i]);
    }
  }

  /** Filtering twice is filtering by the union. */
  lemma {:induction false} FirstNewTwice<T>(ks: seq<T>, a: set<T>, b: set<T>)
    ensures FirstNew(FirstNew(ks, a), b) == FirstNew(ks, a + b)
  {
    if ks != [] {
      var init, last := ks[..|ks| - 1], ks[|ks| - 1];
      FirstNewTwice(init, a, b);
      FirstNewElems(init, a);
      FirstNewElems(init, a + b);
      var rest := FirstNew(init, a);
      assert (rest + [last])[..|rest|] == rest;
      assert last in rest <==> last in Elems(rest);
      assert last in FirstNew(init, a + b) <==> last in Elems(FirstNew(init, a + b));
      assert last in init <==> last in Elems(init);
    }
  }
}
