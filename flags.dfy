/**
 * The flag store of types/flags.go: a map from flag name to a value of one
 * of the supported kinds, rendered as "--name" arguments for the tool.
 */
module FlagStore {
  import opened Seqs
  import opened Numeric
  import opened Wrappers

  /**
   * The kinds of value Generate renders. A float carries the text "%.4f"
   * makes of it; a value of any other kind, which makes Generate panic,
   * cannot be written down.
   */
  datatype FlagValue =
    | Nil
    | Bool(b: bool)
    | Int(i: int64)
    | Float(rendered: string)
    | Str(s: string)

  /** A setter made by types.Flag(name, v) */
  datatype FlagSetting = Flag(name: string, value: FlagValue)

  /** One (name, value) pair, as a range over the map yields it */
  type Entry = (string, FlagValue)

  /** The settings applied left to right (written from the last one back). */
  function AssignAll(m: map<string, FlagValue>, fs: seq<FlagSetting>): (r: map<string, FlagValue>)
    ensures m.Keys <= r.Keys
    decreases |fs|
  {
    if fs == [] then m
    else
      var last := fs[|fs| - 1];
      AssignAll(m, fs[..|fs| - 1])[last.name := last.value]
  }

  /** The last setter for a name decides its value. */
  lemma {:induction false} AssignAllLastWins(m: map<string, FlagValue>, fs: seq<FlagSetting>, i: int)
    requires 0 <= i < |fs|
    requires forall j :: i < j < |fs| ==> fs[j].name != fs[i].name
    ensures fs[i].name in AssignAll(m, fs) && AssignAll(m, fs)[fs[i].name] == fs[i].value
    decreases |fs|
  {
    if i < |fs| - 1 {
      AssignAllLastWins(m, fs[..|fs| - 1], i);
    }
  }

  /** A name no setter mentions keeps its entry, or stays absent. */
  lemma {:induction false} AssignAllUntouched(m: map<string, FlagValue>, fs: seq<FlagSetting>, k: string)
    requires forall j :: 0 <= j < |fs| ==> fs[j].name != k
    ensures k in AssignAll(m, fs) <==> k in m
    ensures k in m ==> AssignAll(m, fs)[k] == m[k]
    decreases |fs|
  {
    if fs != [] {
      AssignAllUntouched(m, fs[..|fs| - 1], k);
    }
  }

  /**
   * The tokens one flag contributes: "--" + name alone for nil and true,
   * nothing for false, and "--" + name followed by the value's text for an
   * int, a float or a string.
   */
  function Tokens(name: string, v: FlagValue): (r: seq<string>)
    ensures r == [] <==> v == Bool(false)
    ensures r != [] ==> r[0] == "--" + name
    ensures |r| == 1 <==> v == Nil || v == Bool(true)
    ensures |r| <= 2
    ensures v.Int? ==> |r| == 2 && Atoi(r[1]) == Some(v.i)
    ensures v.Float? ==> r == ["--" + name, v.rendered]
    ensures v.Str? ==> r == ["--" + name, v.s]
  {
    match v
    case Nil => ["--" + name]
    case Bool(b) => if b then ["--" + name] else []
    case Int(i) => AtoiDecimal(i); ["--" + name, Decimal(i)]
    case Float(text) => ["--" + name, text]
    case Str(s) => ["--" + name, s]
  }

  function EntryTokens(e: Entry): seq<string>
  {
    Tokens(e.0, e.1)
  }

  /** The arguments for a sequence of flags, in that order */
  function FlagArgs(order: seq<Entry>): seq<string>
  {
    Flatten(EntryTokens, order)
  }

  /** In any enumeration of a map's pairs, no name occurs twice. */
  lemma EnumeratedNamesDistinct(m: map<string, FlagValue>, order: seq<Entry>, i: int, j: int)
    requires Enumerates(order, m.Items)
    requires 0 <= i < j < |order|
    ensures order[i].0 != order[j].0
  {
    assert order[i] in m.Items && order[j] in m.Items;
  }

  /**
   * Each flag of an enumeration contributes its tokens in one contiguous
   * run, between the runs of the flags before it and those after it.
   */
  lemma FlagArgsAround(order: seq<Entry>, i: int)
    requires 0 <= i < |order|
    ensures FlagArgs(order) == FlagArgs(order[..i]) + Tokens(order[i].0, order[i].1) + FlagArgs(order[i + 1..])
  {
    Around(order, i);
    FlattenAround(EntryTokens, order[..i], order[i], order[i + 1..]);
  }

  /** types.Flags: a map from flag name to value */
  class Flags {
    var m: map<string, FlagValue>

    /** NewFlags(values...): an empty map with the setters applied */
    constructor (values: seq<FlagSetting>)
      ensures m == AssignAll(map[], values)
    {
      m := map[];
      new;
      SetFlags(values);
    }

    method SetFlags(values: seq<FlagSetting>)
      modifies this
      ensures m == AssignAll(old(m), values)
    {
      for i := 0 to |values|
        invariant m == AssignAll(old(m), values[..i])
      {
        assert values[..i + 1][..i] == values[..i];
        Set(values[i].name, values[i].value);
      }
      assert values[..|values|] == values;
    }

    /** Set and the setter Flag: the name now maps to v, every other entry is unchanged. */
    method Set(name: string, v: FlagValue)
      modifies this
      ensures m == old(m)[name := v]
    {
      m := m[name := v];
    }

    /**
     * Generate: the tokens of every flag, in the order a range over the map
     * yields its pairs (any order: order is the enumeration that was taken).
     */
    method Generate() returns (result: seq<string>, ghost order: seq<Entry>)
      ensures Enumerates(order, m.Items)
      ensures result == FlagArgs(order)
    {
      result := [];
      order := [];
      var remaining := m.Items;
      while remaining != {}
        invariant remaining <= m.Items
        invariant NoDup(order)
        invariant forall e :: e in order <==> e in m.Items && e !in remaining
        invariant result == FlagArgs(order)
        decreases remaining
      {
        var e :| e in remaining;
        var (k, v) := e;
        var tokens: seq<string>;
        match v {
          case Nil => tokens := ["--" + k];
          case Bool(b) => tokens := if b then ["--" + k] else [];
          case Int(i) => tokens := ["--" + k, Decimal(i)];
          case Float(text) => tokens := ["--" + k, text];
          case Str(s) => tokens := ["--" + k, s];
        }
        assert (order + [e])[..|order|] == order;
        result := result + tokens;
        order := order + [e];
        remaining := remaining - {e};
      }
    }
  }
}
