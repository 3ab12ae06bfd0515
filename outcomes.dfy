/**
 * Failure-carrying values for the scraper model.
 *
 * The scraper never returns error codes: a Python exception that nothing
 * catches ends the run. `Result` records such an exception in place of the
 * value; `Option` stands for a value the HTML may or may not hold.
 */
module Outcomes {

  datatype Option<T> = None | Some(value: T)

  /** The uncaught Python exceptions the modelled code can raise. */
  datatype Exn =
    | IndexError         // indexing past the end of a str or list
    | KeyError           // a missing tag attribute or header
    | AttributeError     // `.find(...)` returned None and was used
    | TypeError          // `int(None)`, subscripting None
    | FileNotFoundError  // `os.makedirs('')`

  datatype Result<T> = Ok(value: T) | Raise(exn: Exn)

  /**
   * Evaluates `rs` left to right as a list comprehension does: the first
   * exception raised is the outcome, otherwise every value in order.
   */
  function Traverse<T>(rs: seq<Result<T>>): (r: Result<seq<T>>)
    ensures r.Ok? <==> forall k :: 0 <= k < |rs| ==> rs[k].Ok?
    ensures r.Ok? ==> |r.value| == |rs| && forall k :: 0 <= k < |rs| ==> r.value[k] == rs[k].value
    ensures r.Raise? ==> exists j :: 0 <= j < |rs| && rs[j] == Raise(r.exn) && forall k :: 0 <= k < j ==> rs[k].Ok?
  {
    if rs == [] then Ok([])
    else
      var init := rs[..|rs| - 1];
      assert forall k :: 0 <= k < |rs| - 1 ==> init[k] == rs[k];
      match Traverse(init)
      case Raise(e) => Raise(e)
      case Ok(vs) =>
        match rs[|rs| - 1]
        case Raise(e) => Raise(e)
        case Ok(v) => Ok(vs + [v])
  }

  /** Traversing one more element extends a successful traversal of the prefix. */
  lemma TraverseStep<T>(rs: seq<Result<T>>, i: nat, vs: seq<T>)
    requires i < |rs| && Traverse(rs[..i]) == Ok(vs)
    ensures Traverse(rs[..i + 1]) == (if rs[i].Ok? then Ok(vs + [rs[i].value]) else Raise(rs[i].exn))
  {
    assert rs[..i + 1][..i] == rs[..i];
  }

  /** The first exception met while traversing a prefix is the exception of the whole. */
  lemma TraverseFirstRaise<T>(rs: seq<Result<T>>, i: nat)
    requires i < |rs| && Traverse(rs[..i]).Ok? && rs[i].Raise?
    ensures Traverse(rs) == Raise(rs[i].exn)
  {
    assert forall k :: 0 <= k < i ==> rs[..i][k] == rs[k];
  }

  /** The concatenation of a sequence of sequences. */
  function Flatten<T>(xss: seq<seq<T>>): (r: seq<T>)
    ensures forall k, x :: 0 <= k < |xss| && x in xss[k] ==> x in r
    ensures forall x :: x in r ==> exists k :: 0 <= k < |xss| && x in xss[k]
  {
    if xss == [] then [] else Flatten(xss[..|xss| - 1]) + xss[|xss| - 1]
  }

  /**
   * The map a Python loop or dict comprehension builds by assigning each
   * pair of `kvs` in turn on top of `m`.
   */
  function Insert<K, V>(m: map<K, V>, kvs: seq<(K, V)>): map<K, V>
  {
    if kvs == [] then m
    else Insert(m, kvs[..|kvs| - 1])[kvs[|kvs| - 1].0 := kvs[|kvs| - 1].1]
  }

  /** A key is present afterwards exactly when it was present before or some pair assigns it. */
  lemma {:induction false} InsertKeys<K, V>(m: map<K, V>, kvs: seq<(K, V)>, k: K)
    ensures k in Insert(m, kvs) <==> k in m || exists j :: 0 <= j < |kvs| && kvs[j].0 == k
  {
    if kvs != [] {
      var init := kvs[..|kvs| - 1];
      InsertKeys(m, init, k);
      assert forall j :: 0 <= j < |init| ==> init[j] == kvs[j];
      if k in Insert(m, kvs) && k !in m && k != kvs[|kvs| - 1].0 {
        var j :| 0 <= j < |init| && init[j].0 == k;
        assert kvs[j].0 == k;
      }
    }
  }

  /** A later pair with the same key overwrites an earlier one: the last assignment wins. */
  lemma {:induction false} InsertLastWins<K, V>(m: map<K, V>, kvs: seq<(K, V)>, j: nat)
    requires j < |kvs|
    requires forall l :: j < l < |kvs| ==> kvs[l].0 != kvs[j].0
    ensures kvs[j].0 in Insert(m, kvs) && Insert(m, kvs)[kvs[j].0] == kvs[j].1
  {
    if j < |kvs| - 1 {
      var init := kvs[..|kvs| - 1];
      assert forall l :: 0 <= l < |init| ==> init[l] == kvs[l];
      InsertLastWins(m, init, j);
    }
  }

  /** A key no pair assigns keeps its old value. */
  lemma {:induction false} InsertUntouched<K, V>(m: map<K, V>, kvs: seq<(K, V)>, k: K)
    requires k in m
    requires forall j :: 0 <= j < |kvs| ==> kvs[j].0 != k
    ensures k in Insert(m, kvs) && Insert(m, kvs)[k] == m[k]
  {
    if kvs != [] {
      var init := kvs[..|kvs| - 1];
      assert forall l :: 0 <= l < |init| ==> init[l] == kvs[l];
      InsertUntouched(m, init, k);
    }
  }

  lemma InsertAppend<K, V>(m: map<K, V>, kvs: seq<(K, V)>, kv: (K, V))
    ensures Insert(m, kvs + [kv]) == Insert(m, kvs)[kv.0 := kv.1]
  {
    assert (kvs + [kv])[..|kvs|] == kvs;
  }

  /** The keys of the map a successful comprehension builds on top of `m`: its own and those of the entries. */
  lemma TraverseInsertKeys<K, V>(m: map<K, V>, rs: seq<Result<(K, V)>>, key: K)
    requires Traverse(rs).Ok?
    ensures key in Insert(m, Traverse(rs).value) <==> key in m || exists j :: 0 <= j < |rs| && rs[j] == Ok((key, rs[j].value.1))
  {
    var kvs := Traverse(rs).value;
    InsertKeys(m, kvs, key);
    if key in Insert(m, kvs) && key !in m {
      var j :| 0 <= j < |kvs| && kvs[j].0 == key;
      assert rs[j] == Ok((key, rs[j].value.1));
    }
  }

  /** In the map a successful comprehension builds, the last entry with a key gives its value. */
  lemma TraverseInsertLastWins<K, V>(m: map<K, V>, rs: seq<Result<(K, V)>>, j: nat)
    requires Traverse(rs).Ok? && j < |rs|
    requires forall l :: j < l < |rs| ==> rs[l].value.0 != rs[j].value.0
    ensures rs[j].value.0 in Insert(m, Traverse(rs).value)
    ensures Insert(m, Traverse(rs).value)[rs[j].value.0] == rs[j].value.1
  {
    InsertLastWins(m, Traverse(rs).value, j);
  }

  /** A key no entry carries keeps its value in `m`. */
  lemma TraverseInsertUntouched<K, V>(m: map<K, V>, rs: seq<Result<(K, V)>>, key: K)
    requires Traverse(rs).Ok? && key in m
    requires forall j :: 0 <= j < |rs| ==> rs[j].value.0 != key
    ensures key in Insert(m, Traverse(rs).value) && Insert(m, Traverse(rs).value)[key] == m[key]
  {
    InsertUntouched(m, Traverse(rs).value, key);
  }

  /**
   * Inserting the pairs of a successful traversal: a key is present when it
   * was before or some pair carries it; the last pair carrying a key gives
   * its value; a key no pair carries keeps its old value.
   */
  lemma TraverseInsert<K, V>(m: map<K, V>, rs: seq<Result<(K, V)>>, key: K)
    requires Traverse(rs).Ok?
    ensures var r := Insert(m, Traverse(rs).value);
      && (key in r <==> key in m || exists j :: 0 <= j < |rs| && rs[j] == Ok((key, rs[j].value.1)))
      && (forall j :: (0 <= j < |rs| && rs[j].value.0 == key
                       && (forall l :: j < l < |rs| ==> rs[l].value.0 != key)) ==> r[key] == rs[j].value.1)
      && (key in m && (forall j :: 0 <= j < |rs| ==> rs[j].value.0 != key) ==> r[key] == m[key])
  {
    TraverseInsertKeys(m, rs, key);
    forall j | 0 <= j < |rs| && rs[j].value.0 == key && (forall l :: j < l < |rs| ==> rs[l].value.0 != key)
      ensures Insert(m, Traverse(rs).value)[key] == rs[j].value.1
    {
      TraverseInsertLastWins(m, rs, j);
    }
    if key in m && (forall j :: 0 <= j < |rs| ==> rs[j].value.0 != key) {
      TraverseInsertUntouched(m, rs, key);
    }
  }

  /** `[f(x) for x in xs]`. */
  function Map<A, B>(xs: seq<A>, f: A -> B): seq<B> {
    seq(|xs|, i requires 0 <= i < |xs| => f(xs[i]))
  }

  /** Mapping is element by element: it distributes over concatenation. */
  lemma MapAppend<A, B>(a: seq<A>, b: seq<A>, f: A -> B)
    ensures Map(a + b, f) == Map(a, f) + Map(b, f)
  {
    forall i | 0 <= i < |a + b|
      ensures Map(a + b, f)[i] == (Map(a, f) + Map(b, f))[i]
    {
      if i < |a| {
        assert (a + b)[i] == a[i];
      } else {
        assert (a + b)[i] == b[i - |a|];
      }
    }
  }

  /** The values present in `xs`, in order (the entries that are `None` are dropped). */
  function Somes<T>(xs: seq<Option<T>>): (r: seq<T>)
    ensures |r| <= |xs|
  {
    if xs == [] then []
    else Somes(xs[..|xs| - 1]) + (match xs[|xs| - 1] case Some(x) => [x] case None => [])
  }

  /** Dropping the absent entries keeps exactly the present values. */
  lemma {:induction false} SomesMembers<T>(xs: seq<Option<T>>, x: T)
    ensures x in Somes(xs) <==> exists i :: 0 <= i < |xs| && xs[i] == Some(x)
  {
    if xs != [] {
      var n := |xs| - 1;
      var init := xs[..n];
      SomesMembers(init, x);
      if x in Somes(xs) {
        if x in Somes(init) {
          var i :| 0 <= i < |init| && init[i] == Some(x);
          assert xs[i] == init[i];
        } else {
          assert xs[n] == Some(x);
        }
      } else {
        assert forall i :: 0 <= i < n ==> init[i] == xs[i];
      }
    }
  }

  /** Dropping absent entries of a concatenation drops them from each part. */
  lemma {:induction false} SomesAppend<T>(a: seq<Option<T>>, b: seq<Option<T>>)
    ensures Somes(a + b) == Somes(a) + Somes(b)
    decreases |b|
  {
    if b == [] {
      assert a + b == a;
    } else {
      assert (a + b)[..|a + b| - 1] == a + b[..|b| - 1];
      SomesAppend(a, b[..|b| - 1]);
    }
  }

  /** One more entry of `xs` adds its value, if present, to the values of the prefix before it. */
  lemma SomesNext<T>(xs: seq<Option<T>>, i: nat)
    requires i < |xs|
    ensures Somes(xs[..i + 1]) == Somes(xs[..i]) + (if xs[i].Some? then [xs[i].value] else [])
  {
    assert xs[..i + 1][..i] == xs[..i];
  }

  /** Evaluates `rs` left to right and concatenates the results, stopping at the first exception. */
  function Gather<T>(rs: seq<Result<seq<T>>>): Result<seq<T>> {
    match Traverse(rs)
    case Raise(e) => Raise(e)
    case Ok(xss) => Ok(Flatten(xss))
  }

  /** One more successful element extends the gathered prefix. */
  lemma GatherExtend<T>(rs: seq<Result<seq<T>>>, i: nat, xss: seq<seq<T>>)
    requires i < |rs| && Traverse(rs[..i]) == Ok(xss) && rs[i].Ok?
    ensures Traverse(rs[..i + 1]) == Ok(xss + [rs[i].value])
    ensures Flatten(xss + [rs[i].value]) == Flatten(xss) + rs[i].value
  {
    TraverseStep(rs, i, xss);
    assert (xss + [rs[i].value])[..|xss|] == xss;
  }

  lemma GatherAll<T>(rs: seq<Result<seq<T>>>, xss: seq<seq<T>>)
    requires Traverse(rs[..|rs|]) == Ok(xss)
    ensures Gather(rs) == Ok(Flatten(xss))
  {
    assert rs[..|rs|] == rs;
  }

  /** Every element gathered comes from one of the results, and every element of every result is gathered. */
  lemma GatherMembers<T>(rs: seq<Result<seq<T>>>, x: T)
    requires Gather(rs).Ok?
    ensures x in Gather(rs).value <==> exists k :: 0 <= k < |rs| && x in rs[k].value
  {
    var xss := Traverse(rs).value;
    if x in Gather(rs).value {
      var k :| 0 <= k < |xss| && x in xss[k];
      assert x in rs[k].value;
    }
  }
}
