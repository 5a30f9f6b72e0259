/**
 * The ordered header store of types/headers.go: a map from name to value
 * plus the list of names in first-insertion order, and its rendering as
 * "-H" arguments for the tool.
 */
module HeaderStore {
  import opened Wrappers
  import opened Seqs

  /** A setter made by types.Header(k, v): applied, it calls Set(k, v). */
  datatype HeaderSetting = Header(key: string, value: string)

  /** One (name, value) pair, as a range over the map yields it */
  type Entry = (string, string)

  /** The abstract value of a store: the names in insertion order and the map */
  datatype Table = Table(keys: seq<string>, m: map<string, string>)

  const Empty: Table := Table([], map[])

  /** The store's invariant: no name listed twice, and the list names exactly the map's domain. */
  ghost predicate WellFormed(t: Table) {
    NoDup(t.keys) && forall k :: k in t.keys <==> k in t.m
  }

  /** Go's m[k]: the value under k, or the zero value "" when k is absent. */
  function Lookup(m: map<string, string>, k: string): (v: string)
    ensures k !in m ==> v == ""
  {
    if k in m then m[k] else ""
  }

  /**
   * Set(k, v): the value is stored under k, and k is appended to the name
   * list only if it was not already in the map.
   */
  function Upsert(t: Table, k: string, v: string): (r: Table)
    ensures WellFormed(t) ==> WellFormed(r)
    ensures r.m == t.m[k := v]
    ensures HasPrefix(r.keys, t.keys)
    ensures WellFormed(t) ==> k in r.keys
    ensures k in t.m <==> |r.keys| == |t.keys|
    ensures k in t.m ==> r.keys == t.keys
  {
    if k in t.m then Table(t.keys, t.m[k := v]) else Table(t.keys + [k], t.m[k := v])
  }

  /** SetHeaders: the setters applied left to right (written from the last one back). */
  function Apply(t: Table, hs: seq<HeaderSetting>): (r: Table)
    ensures WellFormed(t) ==> WellFormed(r)
    ensures HasPrefix(r.keys, t.keys)
    ensures forall k :: k in t.m ==> k in r.m
    decreases |hs|
  {
    if hs == [] then t
    else
      var last := hs[|hs| - 1];
      Upsert(Apply(t, hs[..|hs| - 1]), last.key, last.value)
  }

  /** Applying settings one after another is applying their concatenation. */
  lemma {:induction false} ApplyConcat(t: Table, a: seq<HeaderSetting>, b: seq<HeaderSetting>)
    ensures Apply(t, a + b) == Apply(Apply(t, a), b)
    decreases |b|
  {
    if b == [] {
      assert a + b == a;
    } else {
      assert (a + b)[..|a + b| - 1] == a + b[..|b| - 1];
      ApplyConcat(t, a, b[..|b| - 1]);
    }
  }

  /** The last setter for a name decides its value. */
  lemma {:induction false} ApplyLastWins(t: Table, hs: seq<HeaderSetting>, i: int)
    requires 0 <= i < |hs|
    requires forall j :: i < j < |hs| ==> hs[j].key != hs[i].key
    ensures hs[i].key in Apply(t, hs).m && Apply(t, hs).m[hs[i].key] == hs[i].value
    decreases |hs|
  {
    if i < |hs| - 1 {
      ApplyLastWins(t, hs[..|hs| - 1], i);
    }
  }

  /** A name no setter mentions keeps its presence and its value. */
  lemma {:induction false} ApplyUntouched(t: Table, hs: seq<HeaderSetting>, k: string)
    requires forall j :: 0 <= j < |hs| ==> hs[j].key != k
    ensures k in Apply(t, hs).m <==> k in t.m
    ensures Lookup(Apply(t, hs).m, k) == Lookup(t.m, k)
    decreases |hs|
  {
    if hs != [] {
      ApplyUntouched(t, hs[..|hs| - 1], k);
    }
  }

  /**
   * A later setter for a name already listed changes its value but not
   * its position: the name list is the same as before it.
   */
  lemma ResetKeepsPosition(t: Table, hs: seq<HeaderSetting>, i: int)
    requires 0 <= i < |hs| && hs[i].key in Apply(t, hs[..i]).m
    ensures Apply(t, hs[..i + 1]).keys == Apply(t, hs[..i]).keys
  {
    assert hs[..i + 1][..i] == hs[..i];
  }

  /** The quoted header token "'k: v'" */
  function Quoted(k: string, v: string): string
  {
    "'" + k + ": " + v + "'"
  }

  /** The token is the name and the value, in single quotes, with ": " between them. */
  lemma QuotedShape(k: string, v: string)
    ensures var token := Quoted(k, v);
      |token| == |k| + |v| + 4 && token[0] == '\'' && token[|token| - 1] == '\'' &&
      token[1..|k| + 1] == k && token[|k| + 1..|k| + 3] == ": " && token[|k| + 3..|k| + 3 + |v|] == v
  {
    var token := Quoted(k, v);
    assert token[1..|k| + 1] == k;
    assert token[|k| + 3..|k| + 3 + |v|] == v;
  }

  /**
   * Reading a quoted header token back: the quotes stripped and the rest
   * cut at its first ": ", the way the tool takes a "-H" value apart.
   */
  function Unquote(token: string): Option<Entry>
  {
    if |token| < 2 || token[0] != '\'' || token[|token| - 1] != '\'' then None
    else
      var inner := token[1..|token| - 1];
      var i := Find(inner, ": ");
      if i < 0 then None else Some((inner[..i], inner[i + 2..]))
  }

  /** A header name is a token (section 5.1 of RFC 9110): it holds no colon. */
  predicate ColonFree(k: string) {
    ':' !in k
  }

  /** The quoted token of a colon-free name reads back as that name and its value. */
  lemma UnquoteQuoted(k: string, v: string)
    requires ColonFree(k)
    ensures Unquote(Quoted(k, v)) == Some((k, v))
  {
    var token := Quoted(k, v);
    var inner := k + ": " + v;
    assert token[1..|token| - 1] == inner;
    SeparableByHead(k, ": ");
    assert inner[..|k| + 2] == k + ": ";
    forall j | 0 <= j < |k| ensures !OccursAt(inner, ": ", j) {
      OccursInPrefix(inner, |k| + 2, ": ", j);
    }
    assert inner[|k|..|k| + 2] == ": ";
    FindIs(inner, ": ", |k|);
    assert inner[..|k|] == k;
    assert inner[|k| + 2..] == v;
  }

  /** Reading an argument list of "-H" pairs back into its headers, or None when it is not one */
  function Unpack(args: seq<string>): Option<seq<Entry>>
    decreases |args|
  {
    if args == [] then Some([])
    else if |args| < 2 || args[|args| - 2] != "-H" then None
    else
      match (Unpack(args[..|args| - 2]), Unquote(args[|args| - 1]))
      case (Some(init), Some(e)) => Some(init + [e])
      case _ => None
  }

  /** The two tokens one header contributes: "-H" and the quoted header. */
  function HeaderTokens(e: Entry): seq<string>
  {
    ["-H", Quoted(e.0, e.1)]
  }

  /** The arguments for a sequence of headers, in that order */
  function HeaderArgs(order: seq<Entry>): seq<string>
  {
    Flatten(HeaderTokens, order)
  }

  /** The entries of the store in its name-list order */
  function Entries(t: Table): (es: seq<Entry>)
    ensures |es| == |t.keys|
    ensures forall i :: 0 <= i < |t.keys| ==> es[i] == (t.keys[i], Lookup(t.m, t.keys[i]))
  {
    seq(|t.keys|, i requires 0 <= i < |t.keys| => (t.keys[i], Lookup(t.m, t.keys[i])))
  }

  /** Two tokens per header */
  lemma {:induction false} HeaderArgsLength(order: seq<Entry>)
    ensures |HeaderArgs(order)| == 2 * |order|
    decreases |order|
  {
    if order != [] {
      HeaderArgsLength(order[..|order| - 1]);
    }
  }

  /** Two tokens per header: "-H" at every even position, the header after it. */
  lemma {:induction false} HeaderArgsAt(order: seq<Entry>)
    ensures |HeaderArgs(order)| == 2 * |order|
    ensures forall i :: 0 <= i < |order| ==>
      HeaderArgs(order)[2 * i] == "-H" && HeaderArgs(order)[2 * i + 1] == Quoted(order[i].0, order[i].1)
    decreases |order|
  {
    if order != [] {
      var init := order[..|order| - 1];
      HeaderArgsAt(init);
      assert HeaderArgs(order) == HeaderArgs(init) + HeaderTokens(order[|order| - 1]);
      forall i | 0 <= i < |order|
        ensures HeaderArgs(order)[2 * i] == "-H" && HeaderArgs(order)[2 * i + 1] == Quoted(order[i].0, order[i].1)
      {
        if i < |init| {
          assert order[i] == init[i];
        }
      }
    }
  }

  /** One more "-H" pair read back: its header follows those read before it. */
  lemma UnpackSnoc(args: seq<string>, k: string, v: string)
    requires ColonFree(k) && Unpack(args).Some?
    ensures Unpack(args + ["-H", Quoted(k, v)]) == Some(Unpack(args).value + [(k, v)])
  {
    var longer := args + ["-H", Quoted(k, v)];
    assert longer[..|longer| - 2] == args;
    UnquoteQuoted(k, v);
  }

  /** Round trip: the arguments of headers with colon-free names read back as those headers, in order. */
  lemma {:induction false} UnpackHeaderArgs(order: seq<Entry>)
    requires forall i :: 0 <= i < |order| ==> ColonFree(order[i].0)
    ensures Unpack(HeaderArgs(order)) == Some(order)
    decreases |order|
  {
    if order != [] {
      var init, last := order[..|order| - 1], order[|order| - 1];
      UnpackHeaderArgs(init);
      assert HeaderArgs(order) == HeaderArgs(init) + ["-H", Quoted(last.0, last.1)];
      UnpackSnoc(HeaderArgs(init), last.0, last.1);
      assert init + [last] == order;
    }
  }

  /** A well-formed store's entries: distinct, and exactly the pairs of its map. */
  lemma EntriesAreItems(t: Table)
    requires WellFormed(t)
    ensures NoDup(Entries(t))
    ensures forall e :: e in Entries(t) <==> e in t.m.Items
  {
    var es := Entries(t);
    forall e | e in t.m.Items ensures e in es {
      assert e.0 in t.m;
      var i :| 0 <= i < |t.keys| && t.keys[i] == e.0;
      assert es[i] == e;
    }
  }

  /**
   * Any enumeration of the map's pairs is a permutation of the name-list
   * order, so both modes emit the same tokens, two per listed name.
   */
  lemma ShuffledIsPermutation(t: Table, order: seq<Entry>)
    requires WellFormed(t) && Enumerates(order, t.m.Items)
    ensures multiset(order) == multiset(Entries(t))
    ensures multiset(HeaderArgs(order)) == multiset(HeaderArgs(Entries(t)))
    ensures |HeaderArgs(order)| == |HeaderArgs(Entries(t))| == 2 * |t.keys|
  {
    EntriesAreItems(t);
    NoDupPermutation(order, Entries(t));
    FlattenPermutation(HeaderTokens, order, Entries(t));
    HeaderArgsAt(order);
    HeaderArgsAt(Entries(t));
    assert |order| == |multiset(order)|;
  }

  /** The two facts Request's argument list needs: the shuffled pairs are a permutation, one entry per listed name. */
  lemma ShuffledArgs(t: Table, order: seq<Entry>)
    requires WellFormed(t) && Enumerates(order, t.m.Items)
    ensures |order| == |t.keys|
    ensures multiset(HeaderArgs(order)) == multiset(HeaderArgs(Entries(t)))
  {
    ShuffledIsPermutation(t, order);
    HeaderArgsLength(order);
  }

  /**
   * Both modes of Generate re-parse to the store: in name-list order the
   * headers come back in that order, and in any enumeration they come back
   * as exactly the map's pairs, each once.
   */
  lemma GeneratedReparses(t: Table, order: seq<Entry>)
    requires WellFormed(t) && forall k :: k in t.keys ==> ColonFree(k)
    requires order == Entries(t) || Enumerates(order, t.m.Items)
    ensures Unpack(HeaderArgs(order)) == Some(order)
    ensures multiset(order) == multiset(Entries(t))
    ensures forall e :: e in order <==> e in t.m.Items
  {
    EntriesAreItems(t);
    forall i | 0 <= i < |order| ensures ColonFree(order[i].0) {
      assert order[i] in t.m.Items;
    }
    UnpackHeaderArgs(order);
    if order != Entries(t) {
      ShuffledIsPermutation(t, order);
    }
  }

  /** What Generate promises of the arguments of a name-list order or of an enumeration */
  lemma GeneratedArgs(t: Table, order: seq<Entry>)
    requires WellFormed(t)
    requires order == Entries(t) || Enumerates(order, t.m.Items)
    ensures |HeaderArgs(order)| == 2 * |t.keys|
    ensures (forall k :: k in t.keys ==> ColonFree(k)) ==>
      Unpack(HeaderArgs(order)) == Some(order) && multiset(order) == multiset(Entries(t))
  {
    HeaderArgsLength(order);
    if order != Entries(t) {
      ShuffledArgs(t, order);
    }
    if forall k :: k in t.keys ==> ColonFree(k) {
      GeneratedReparses(t, order);
    }
  }

  /** types.Headers: a map plus the insertion-ordered key list */
  class Headers {
    var m: map<string, string>
    var keys: seq<string>

    ghost predicate Valid()
      reads this
    {
      WellFormed(Table(keys, m))
    }

    function Contents(): Table
      reads this
    {
      Table(keys, m)
    }

    /** NewHeaders(values...): an empty store with the setters applied */
    constructor (values: seq<HeaderSetting>)
      ensures Valid() && Contents() == Apply(Empty, values)
    {
      m := map[];
      keys := [];
      new;
      SetHeaders(values);
    }

    method SetHeaders(values: seq<HeaderSetting>)
      requires Valid()
      modifies this
      ensures Valid() && Contents() == Apply(old(Contents()), values)
    {
      for i := 0 to |values|
        invariant Valid() && Contents() == Apply(old(Contents()), values[..i])
      {
        assert values[..i + 1][..i] == values[..i];
        Set(values[i].key, values[i].value);
      }
      assert values[..|values|] == values;
    }

    method Set(k: string, v: string)
      requires Valid()
      modifies this
      ensures Valid() && Contents() == Upsert(old(Contents()), k, v)
    {
      var present := k in m;
      m := m[k := v];
      if !present {
        keys := keys + [k];
      }
    }

    /** Get(k): the value under k, "" when it was never set (Lookup, on the store's map) */
    method Get(k: string) returns (v: string)
      ensures v == Lookup(m, k)
    {
      v := if k in m then m[k] else "";
    }

    /**
     * Generate(shuffle): the "-H" arguments, in name-list order, or when
     * shuffle is set in the order a range over the map yields its pairs
     * (any order: order is the enumeration that was taken).
     */
    method Generate(shuffle: bool) returns (result: seq<string>, ghost order: seq<Entry>)
      requires Valid()
      ensures !shuffle ==> order == Entries(Contents())
      ensures shuffle ==> Enumerates(order, m.Items)
      ensures result == HeaderArgs(order)
      ensures !shuffle ==> result == HeaderArgs(Entries(Contents()))
      ensures |result| == 2 * |keys|
      ensures (forall k :: k in keys ==> ColonFree(k)) ==>
        Unpack(result).Some? && multiset(Unpack(result).value) == multiset(Entries(Contents()))
      ensures !shuffle && (forall k :: k in keys ==> ColonFree(k)) ==> Unpack(result) == Some(Entries(Contents()))
    {
      if shuffle {
        result, order := GenerateShuffled();
      } else {
        result, order := GenerateOrdered();
      }
      GeneratedArgs(Contents(), order);
    }

    /** The loop over the map: the pairs in whatever order the range yields them */
    method GenerateShuffled() returns (result: seq<string>, ghost order: seq<Entry>)
      ensures Enumerates(order, m.Items)
      ensures result == HeaderArgs(order)
    {
      result := [];
      order := [];
      var remaining := m.Items;
      while remaining != {}
        invariant remaining <= m.Items
        invariant NoDup(order)
        invariant forall e :: e in order <==> e in m.Items && e !in remaining
        invariant result == HeaderArgs(order)
        decreases remaining
      {
        var e :| e in remaining;
        assert (order + [e])[..|order|] == order;
        result := result + ["-H", Quoted(e.0, e.1)];
        order := order + [e];
        remaining := remaining - {e};
      }
    }

    /** The loop over the name list */
    method GenerateOrdered() returns (result: seq<string>, ghost order: seq<Entry>)
      ensures order == Entries(Contents())
      ensures result == HeaderArgs(order)
    {
      result := [];
      order := [];
      for i := 0 to |keys|
        invariant order == Entries(Table(keys[..i], m))
        invariant result == HeaderArgs(order)
      {
        var k := keys[i];
        var e := (k, if k in m then m[k] else "");
        assert (order + [e])[..|order|] == order;
        result := result + ["-H", Quoted(k, e.1)];
        order := order + [e];
      }
      assert keys[..|keys|] == keys;
    }
  }
}
