/** The application settings: a nested PHP array read with dot-separated keys, as in
    get('pagination.per_page'). */
module AppSettings {
  import opened Wrappers
  import opened Strings
  import opened Php

  /** A key segment that names an element of a list: the decimal text of an index, without
      leading zeros (PHP turns such string keys into integer keys). */
  predicate IsIndexText(part: string) {
    && |part| > 0
    && (forall i :: 0 <= i < |part| ==> IsDigit(part[i]))
    && (|part| == 1 || part[0] != '0')
  }

  /** One step of the walk: `is_array($value) && array_key_exists($part, $value)`, then
      `$value[$part]`; None where get answers null. An object is not an array. */
  function Step(v: Value, part: string): Option<Value>
  {
    match v
    case Dict(fields) => if part in fields then Some(fields[part]) else None
    case List(items) => if IsIndexText(part) && DigitsValue(part) < |items| then Some(items[DigitsValue(part)]) else None
    case _ => None
  }

  /** The value reached by following the segments from v, or null when a segment is missing
      or the value it would be read from is not an array. */
  function Descend(v: Value, parts: seq<string>): Value
  {
    if |parts| == 0 then v
    else match Step(v, parts[0])
      case None => Null
      case Some(w) => Descend(w, parts[1..])
  }

  /** get's answer for a key: everything for an empty key ('' and also '0', which PHP counts as
      empty), else the walk along the key's '.'-separated segments. */
  function GetOf(settings: Value, key: string): Value
  {
    if Falsy(Str(key)) then settings else Descend(settings, Split(key, '.'))
  }

  class Settings {
    const settings: Value

    constructor (settings: Value)
      requires IsArray(settings)
      ensures this.settings == settings
    {
      this.settings := settings;
    }

    /** get: the segments are followed one at a time; the first missing one gives null. */
    method Get(key: string) returns (value: Value)
      ensures value == GetOf(settings, key)
    {
      if Falsy(Str(key)) {
        return settings;
      }
      var parts := Split(key, '.');
      value := settings;
      for i := 0 to |parts|
        invariant Descend(settings, parts) == Descend(value, parts[i..])
      {
        assert parts[i..][1..] == parts[i + 1..];
        var next := Step(value, parts[i]);
        if next.None? {
          return Null;
        }
        value := next.value;
      }
      assert parts[|parts|..] == [];
    }
  }

  /** Following a path in two pieces is following it at once: a failed first piece gives null,
      and null has no entries. */
  lemma {:induction false} DescendAppend(v: Value, p: seq<string>, q: seq<string>)
    ensures Descend(v, p + q) == Descend(Descend(v, p), q)
  {
    if |p| == 0 {
      assert p + q == q;
    } else {
      assert (p + q)[0] == p[0];
      assert (p + q)[1..] == p[1..] + q;
      match Step(v, p[0])
      case None =>
        DescendNull(q);
      case Some(w) =>
        DescendAppend(w, p[1..], q);
    }
  }

  lemma DescendNull(q: seq<string>)
    ensures Descend(Null, q) == Null
  {
  }

  /** get('a.b') is get('a')['b'] for segments without '.', when 'a' is a real key (not '' or
      '0', which read the whole settings instead). */
  lemma NestedKey(settings: Value, a: string, b: string)
    requires '.' !in a && '.' !in b
    requires !Falsy(Str(a))
    ensures GetOf(settings, a + "." + b) == Descend(GetOf(settings, a), [b])
  {
    SplitOne(a);
    SplitOne(b);
    SplitTwo(a, b);
    assert !Falsy(Str(a + "." + b)) by {
      assert |a + "." + b| >= 2;
    }
    DescendAppend(settings, [a], [b]);
    assert [a] + [b] == [a, b];
  }

  lemma SplitOne(s: string)
    requires '.' !in s
    ensures Split(s, '.') == [s]
  {
    assert IndexOf(s, '.') == |s|;
  }

  lemma SplitTwo(a: string, b: string)
    requires '.' !in a && '.' !in b
    ensures Split(a + "." + b, '.') == [a, b]
  {
    var s := a + "." + b;
    assert IndexOf(s, '.') == |a| by {
      assert s[|a|] == '.';
      IndexOfFirst(s, '.', |a|);
    }
    assert s[..|a|] == a;
    assert s[|a| + 1..] == b;
    SplitOne(b);
  }

  lemma IndexOfFirst(s: string, c: char, k: nat)
    requires k < |s| && s[k] == c
    requires forall i :: 0 <= i < k ==> s[i] != c
    ensures IndexOf(s, c) == k
  {
  }

  /** A list element is reached by the decimal text of its index. */
  lemma ListIndexKey(items: seq<Value>, n: nat)
    requires n < |items|
    ensures Step(List(items), NatToDecimal(n)) == Some(items[n])
  {
    DigitsOfNat(n);
    DecimalLeadsWithNonZero(n);
  }

  lemma {:induction false} DecimalLeadsWithNonZero(n: nat)
    ensures n >= 10 ==> NatToDecimal(n)[0] != '0'
    decreases n
  {
    if n >= 10 {
      DecimalLeadsWithNonZero(n / 10);
      assert NatToDecimal(n)[0] == NatToDecimal(n / 10)[0];
    }
  }
}
