/** Django's QueryDict as the views use it: a dictionary from keys to lists
    of values, keys kept in the order they first appeared, built from a
    query string and written back to one by urlencode(). Keys and values are
    taken as already decoded: percent-escapes and '+' are not modelled. */
module QueryDicts {
  import opened Wrappers
  import opened Text

  /** The keys in order of first appearance, each with its values in order. */
  type MultiValueDict = seq<(string, seq<string>)>

  /** No key is listed twice. */
  predicate DistinctKeys(d: MultiValueDict)
  {
    forall i, j :: 0 <= i < j < |d| ==> d[i].0 != d[j].0
  }

  /** The dictionary holds the key. */
  predicate HasKey(d: MultiValueDict, key: string)
  {
    exists i :: 0 <= i < |d| && d[i].0 == key
  }

  /** The position of the key, if it is there. */
  function FindKey(d: MultiValueDict, key: string): (r: Option<nat>)
    ensures r.Some? ==> r.value < |d| && d[r.value].0 == key && forall i :: 0 <= i < r.value ==> d[i].0 != key
    ensures r.None? <==> !HasKey(d, key)
  {
    if |d| == 0 then None
    else if d[0].0 == key then Some(0)
    else match FindKey(d[1..], key)
      case None => None
      case Some(i) => Some(i + 1)
  }

  /** getlist(key): the key's values, or none. */
  function GetList(d: MultiValueDict, key: string): (r: seq<string>)
    ensures !HasKey(d, key) ==> r == []
  {
    match FindKey(d, key)
    case None => []
    case Some(i) => d[i].1
  }

  /** get(key): the last of the key's values, or None when it has none. */
  function Get(d: MultiValueDict, key: string): (r: Option<string>)
    ensures r.None? <==> GetList(d, key) == []
    ensures r.Some? ==> r.value == GetList(d, key)[|GetList(d, key)| - 1]
  {
    var values := GetList(d, key);
    if |values| == 0 then None else Some(values[|values| - 1])
  }

  /** appendlist(key, value): the value joins the end of the key's list; a
      new key joins the end of the dictionary. */
  function AppendValue(d: MultiValueDict, key: string, value: string): (r: MultiValueDict)
  {
    match FindKey(d, key)
    case None => d + [(key, [value])]
    case Some(i) => d[i := (key, d[i].1 + [value])]
  }

  /** d[key] = value: the key's values become [value]; a key already there
      keeps its place, a new one joins the end. */
  function SetItem(d: MultiValueDict, key: string, value: string): (r: MultiValueDict)
  {
    match FindKey(d, key)
    case None => d + [(key, [value])]
    case Some(i) => d[i := (key, [value])]
  }

  /** del d[key] for a key that is there, and nothing otherwise. */
  function Remove(d: MultiValueDict, key: string): (r: MultiValueDict)
  {
    match FindKey(d, key)
    case None => d
    case Some(i) => d[..i] + d[i + 1..]
  }

  /** Adding pairs one at a time, from the left. */
  function AddAll(d: MultiValueDict, pairs: seq<(string, string)>): MultiValueDict
  {
    if |pairs| == 0 then d
    else
      var last := pairs[|pairs| - 1];
      AppendValue(AddAll(d, pairs[..|pairs| - 1]), last.0, last.1)
  }

  /** The first '=' of a piece, or -1. */
  function FirstIndex(s: string, c: char): (i: int)
    ensures -1 <= i < |s|
    ensures i >= 0 ==> s[i] == c && c !in s[..i]
    ensures i < 0 ==> c !in s
  {
    if |s| == 0 then -1
    else if s[0] == c then 0
    else
      var i := FirstIndex(s[1..], c);
      if i < 0 then -1
      else
        assert s[..i + 1] == [s[0]] + s[1..][..i];
        i + 1
  }

  /** One piece of a query string: the key before the first '=' and the
      value after it; a piece without '=' is a key with an empty value. */
  function ParsePair(piece: string): (string, string)
  {
    var i := FirstIndex(piece, '=');
    if i < 0 then (piece, "") else (piece[..i], piece[i + 1..])
  }

  /** The pairs of the non-empty pieces, in order. */
  function PiecePairs(pieces: seq<string>): (r: seq<(string, string)>)
  {
    if |pieces| == 0 then []
    else (if pieces[0] == "" then [] else [ParsePair(pieces[0])]) + PiecePairs(pieces[1..])
  }

  /** QueryDict(query): the pieces between '&' that are not empty, each
      split at its first '=', added in order. */
  function Parse(query: string): (r: MultiValueDict)
  {
    AddAll([], PiecePairs(Split(query, '&')))
  }

  /** The pairs of a dictionary, key by key. */
  function Flatten(d: MultiValueDict): (r: seq<(string, string)>)
  {
    if |d| == 0 then []
    else Flatten(d[..|d| - 1]) + Pairs(d[|d| - 1].0, d[|d| - 1].1)
  }

  function Pairs(key: string, values: seq<string>): (r: seq<(string, string)>)
    ensures |r| == |values|
    ensures forall i :: 0 <= i < |r| ==> r[i] == (key, values[i])
  {
    seq(|values|, i requires 0 <= i < |values| => (key, values[i]))
  }

  function EncodePairs(pairs: seq<(string, string)>): (r: seq<string>)
    ensures |r| == |pairs|
    ensures forall i :: 0 <= i < |r| ==> r[i] == pairs[i].0 + "=" + pairs[i].1
  {
    seq(|pairs|, i requires 0 <= i < |pairs| => pairs[i].0 + "=" + pairs[i].1)
  }

  /** urlencode(): every value of every key as key=value, key by key,
      joined by '&'. */
  function Encode(d: MultiValueDict): string
  {
    Join(EncodePairs(Flatten(d)), "&")
  }

  /** A dictionary urlencode() writes out so that parsing reads it back:
      distinct keys that each have values, no '&' anywhere and no '=' in a
      key. */
  predicate Encodable(d: MultiValueDict)
  {
    DistinctKeys(d)
    && forall i :: 0 <= i < |d| ==>
         |d[i].1| > 0 && '&' !in d[i].0 && '=' !in d[i].0
         && forall j :: 0 <= j < |d[i].1| ==> '&' !in d[i].1[j]
  }

  // ---------------------------------------------------------------- lemmas

  lemma FindKeyAppendNew(d: MultiValueDict, key: string, values: seq<string>)
    requires !HasKey(d, key)
    ensures FindKey(d + [(key, values)], key) == Some(|d|)
  {
    assert (d + [(key, values)])[|d|].0 == key;
  }

  /** Where the keys are the same, so are the positions. */
  lemma {:induction false} FindKeySameKeys(d: MultiValueDict, e: MultiValueDict, key: string)
    requires |d| == |e| && forall j :: 0 <= j < |d| ==> d[j].0 == e[j].0
    ensures FindKey(d, key) == FindKey(e, key)
    decreases |d|
  {
    if |d| > 0 {
      FindKeySameKeys(d[1..], e[1..], key);
    }
  }

  /** Adding `a` and then `b` is adding `a + b`. */
  lemma {:induction false} AddAllConcat(d: MultiValueDict, a: seq<(string, string)>, b: seq<(string, string)>)
    ensures AddAll(d, a + b) == AddAll(AddAll(d, a), b)
    decreases |b|
  {
    if |b| == 0 {
      assert a + b == a;
    } else {
      assert (a + b)[..|a + b| - 1] == a + b[..|b| - 1];
      AddAllConcat(d, a, b[..|b| - 1]);
    }
  }

  /** Adding the values of a new key puts the key at the end with exactly
      those values. */
  lemma {:induction false} AddAllPairs(d: MultiValueDict, key: string, values: seq<string>)
    requires !HasKey(d, key) && |values| > 0
    ensures AddAll(d, Pairs(key, values)) == d + [(key, values)]
    decreases |values|
  {
    var n := |values|;
    var ps := Pairs(key, values);
    assert ps[..n - 1] == Pairs(key, values[..n - 1]);
    if n == 1 {
      assert AddAll(d, ps[..n - 1]) == d;
      assert [values[0]] == values;
    } else {
      AddAllPairs(d, key, values[..n - 1]);
      FindKeyAppendNew(d, key, values[..n - 1]);
      assert values[..n - 1] + [values[n - 1]] == values;
    }
  }

  /** Dropping the last key of a dictionary with distinct keys that each
      have values leaves such a dictionary, without that key. */
  lemma DropLast(d: MultiValueDict)
    requires |d| > 0 && DistinctKeys(d) && forall i :: 0 <= i < |d| ==> |d[i].1| > 0
    ensures var front := d[..|d| - 1];
      DistinctKeys(front) && (forall i :: 0 <= i < |front| ==> |front[i].1| > 0)
      && !HasKey(front, d[|d| - 1].0) && front + [d[|d| - 1]] == d
  {
    var front := d[..|d| - 1];
    assert forall i :: 0 <= i < |front| ==> front[i] == d[i];
  }

  /** Adding the pairs of a dictionary with distinct keys that each have
      values builds that dictionary. */
  lemma {:induction false} AddAllFlatten(d: MultiValueDict)
    requires DistinctKeys(d) && forall i :: 0 <= i < |d| ==> |d[i].1| > 0
    ensures AddAll([], Flatten(d)) == d
    decreases |d|
  {
    if |d| > 0 {
      var front, last := d[..|d| - 1], d[|d| - 1];
      DropLast(d);
      AddAllFlatten(front);
      AddAllConcat([], Flatten(front), Pairs(last.0, last.1));
      AddAllPairs(front, last.0, last.1);
    }
  }

  /** Splitting a join at a separator no piece holds gives the pieces. */
  lemma {:induction false} SplitOfJoin(pieces: seq<string>, sep: char)
    requires |pieces| > 0 && forall k :: 0 <= k < |pieces| ==> sep !in pieces[k]
    ensures Split(Join(pieces, [sep]), sep) == pieces
    decreases |pieces|
  {
    if |pieces| == 1 {
      SplitNone(pieces[0], sep);
    } else {
      var rest := pieces[1..];
      SplitOfJoin(rest, sep);
      SplitAround(pieces[0], sep, Join(rest, [sep]));
      assert [pieces[0]] + rest == pieces;
    }
  }

  /** A key without '=' is cut back off its value. */
  lemma ParsePairOfEncoded(key: string, value: string)
    requires '=' !in key
    ensures ParsePair(key + "=" + value) == (key, value)
  {
    var s := key + "=" + value;
    assert s[|key|] == '=';
    assert s[..|key|] == key;
    assert forall i :: 0 <= i < |key| ==> s[i] == key[i];
    assert FirstIndex(s, '=') == |key|;
    assert s[|key| + 1..] == value;
  }

  lemma {:induction false} PiecePairsOfEncoded(pairs: seq<(string, string)>)
    requires forall i :: 0 <= i < |pairs| ==> '=' !in pairs[i].0
    ensures PiecePairs(EncodePairs(pairs)) == pairs
    decreases |pairs|
  {
    if |pairs| > 0 {
      var enc := EncodePairs(pairs);
      assert enc[1..] == EncodePairs(pairs[1..]);
      PiecePairsOfEncoded(pairs[1..]);
      assert enc[0] != "";
      ParsePairOfEncoded(pairs[0].0, pairs[0].1);
      assert [pairs[0]] + pairs[1..] == pairs;
    }
  }

  /** Every pair of an encodable dictionary is free of '&', and its key of '='. */
  lemma {:induction false} FlattenPlain(d: MultiValueDict)
    requires Encodable(d)
    ensures forall i :: 0 <= i < |Flatten(d)| ==>
      '&' !in Flatten(d)[i].0 && '&' !in Flatten(d)[i].1 && '=' !in Flatten(d)[i].0
    decreases |d|
  {
    if |d| > 0 {
      var front := d[..|d| - 1];
      assert Encodable(front) by {
        forall i | 0 <= i < |front|
          ensures front[i] == d[i]
        {
        }
      }
      FlattenPlain(front);
    }
  }

  /** QueryDict(d.urlencode()) == d: parsing what urlencode wrote gives the
      dictionary back. */
  lemma ParseEncode(d: MultiValueDict)
    requires Encodable(d)
    ensures Parse(Encode(d)) == d
  {
    var pairs := Flatten(d);
    var pieces := EncodePairs(pairs);
    FlattenPlain(d);
    if |pieces| == 0 {
      assert Encode(d) == "";
      assert Split("", '&') == [[]];
    } else {
      forall k | 0 <= k < |pieces|
        ensures '&' !in pieces[k]
      {
        assert pieces[k] == pairs[k].0 + "=" + pairs[k].1;
      }
      SplitOfJoin(pieces, '&');
    }
    PiecePairsOfEncoded(pairs);
    AddAllFlatten(d);
  }

  /** The entries left by removing position i, in terms of the original. */
  lemma RemoveAt(d: MultiValueDict, i: nat)
    requires i < |d|
    ensures var r := d[..i] + d[i + 1..];
      |r| == |d| - 1 && forall j :: 0 <= j < |r| ==> r[j] == (if j < i then d[j] else d[j + 1])
  {
  }

  /** A key is found at its first position. */
  lemma FindKeyAt(d: MultiValueDict, key: string, m: nat)
    requires m < |d| && d[m].0 == key && forall j :: 0 <= j < m ==> d[j].0 != key
    ensures FindKey(d, key) == Some(m)
  {
    assert HasKey(d, key);
  }

  /** After removing a key it is gone, and the keys stay distinct. */
  lemma RemoveGone(d: MultiValueDict, key: string)
    requires DistinctKeys(d)
    ensures !HasKey(Remove(d, key), key)
    ensures DistinctKeys(Remove(d, key))
  {
    match FindKey(d, key)
    case None =>
    case Some(i) =>
      var r := d[..i] + d[i + 1..];
      RemoveAt(d, i);
      forall j | 0 <= j < |r|
        ensures r[j].0 != key
      {
        if j < i {
          assert r[j] == d[j];
        } else {
          assert r[j] == d[j + 1];
        }
      }
  }

  /** A key missing before removing position i is still missing. */
  lemma RemovedStillMissing(d: MultiValueDict, i: nat, other: string)
    requires i < |d| && !HasKey(d, other)
    ensures !HasKey(d[..i] + d[i + 1..], other)
  {
    var r := d[..i] + d[i + 1..];
    RemoveAt(d, i);
    forall j | 0 <= j < |r|
      ensures r[j].0 != other
    {
      if j >= i {
        assert r[j] == d[j + 1];
      }
    }
  }

  /** A key first at m, other than the one at i, is found at its shifted
      place once position i is removed. */
  lemma RemovedShifted(d: MultiValueDict, i: nat, other: string, m: nat)
    requires i < |d| && m < |d| && d[i].0 != other && FindKey(d, other) == Some(m)
    ensures FindKey(d[..i] + d[i + 1..], other) == Some(if m < i then m else m - 1)
  {
    var r := d[..i] + d[i + 1..];
    RemoveAt(d, i);
    var m' := if m < i then m else m - 1;
    assert r[m'] == d[m];
    forall j | 0 <= j < m'
      ensures r[j].0 != other
    {
      if j < i {
        assert r[j] == d[j];
      } else {
        assert r[j] == d[j + 1];
      }
    }
    FindKeyAt(r, other, m');
  }

  /** Removing a key leaves every other key's values alone. */
  lemma RemoveOther(d: MultiValueDict, key: string, other: string)
    requires other != key
    ensures GetList(Remove(d, key), other) == GetList(d, other)
  {
    match FindKey(d, key)
    case None =>
    case Some(i) =>
      match FindKey(d, other)
      case None =>
        RemovedStillMissing(d, i, other);
      case Some(m) =>
        RemovedShifted(d, i, other, m);
        var m' := if m < i then m else m - 1;
        assert (d[..i] + d[i + 1..])[m'] == d[m];
  }

  /** After removing a key it is gone, and every other key keeps its values. */
  lemma RemoveKey(d: MultiValueDict, key: string, other: string)
    requires DistinctKeys(d)
    ensures !HasKey(Remove(d, key), key)
    ensures other != key ==> GetList(Remove(d, key), other) == GetList(d, other)
    ensures DistinctKeys(Remove(d, key))
  {
    RemoveGone(d, key);
    if other != key {
      RemoveOther(d, key, other);
    }
  }

  /** Removing a key from an encodable dictionary leaves it encodable. */
  lemma RemoveEncodable(d: MultiValueDict, key: string)
    requires Encodable(d)
    ensures Encodable(Remove(d, key))
  {
    RemoveGone(d, key);
    match FindKey(d, key)
    case None =>
    case Some(i) =>
      var r := d[..i] + d[i + 1..];
      RemoveAt(d, i);
      forall j | 0 <= j < |r|
        ensures |r[j].1| > 0 && '&' !in r[j].0 && '=' !in r[j].0
                && forall k :: 0 <= k < |r[j].1| ==> '&' !in r[j].1[k]
      {
        if j < i {
          assert r[j] == d[j];
        } else {
          assert r[j] == d[j + 1];
        }
      }
  }

  /** Setting a key that is not there appends it with the one value. */
  lemma SetItemNew(d: MultiValueDict, key: string, value: string, other: string)
    requires DistinctKeys(d) && !HasKey(d, key)
    ensures GetList(SetItem(d, key, value), key) == [value]
    ensures other != key ==> GetList(SetItem(d, key, value), other) == GetList(d, other)
    ensures DistinctKeys(SetItem(d, key, value))
  {
    var r := d + [(key, [value])];
    assert SetItem(d, key, value) == r;
    FindKeyAppendNew(d, key, [value]);
    if other != key {
      match FindKey(d, other)
      case None =>
        assert !HasKey(r, other) by {
          forall j | 0 <= j < |r|
            ensures r[j].0 != other
          {
            if j < |d| {
              assert r[j] == d[j];
            }
          }
        }
      case Some(m) =>
        assert r[m] == d[m];
        assert forall j :: 0 <= j < m ==> r[j] == d[j];
        FindKeyAt(r, other, m);
    }
    forall j, k | 0 <= j < k < |r|
      ensures r[j].0 != r[k].0
    {
      assert r[j] == d[j];
      if k < |d| {
        assert r[k] == d[k];
      }
    }
  }

  /** Setting a key that is there replaces its values in place. */
  lemma SetItemExisting(d: MultiValueDict, key: string, value: string, other: string, i: nat)
    requires DistinctKeys(d) && FindKey(d, key) == Some(i)
    ensures GetList(SetItem(d, key, value), key) == [value]
    ensures other != key ==> GetList(SetItem(d, key, value), other) == GetList(d, other)
    ensures DistinctKeys(SetItem(d, key, value))
  {
    var r := d[i := (key, [value])];
    assert SetItem(d, key, value) == r;
    FindKeySameKeys(r, d, key);
    if other != key {
      FindKeySameKeys(r, d, other);
      match FindKey(d, other)
      case None =>
      case Some(m) =>
        assert r[m] == d[m];
    }
  }

  /** Setting a key gives it the one value and leaves the other keys'
      values alone. */
  lemma SetItemValues(d: MultiValueDict, key: string, value: string, other: string)
    requires DistinctKeys(d)
    ensures GetList(SetItem(d, key, value), key) == [value]
    ensures other != key ==> GetList(SetItem(d, key, value), other) == GetList(d, other)
    ensures DistinctKeys(SetItem(d, key, value))
  {
    match FindKey(d, key)
    case None =>
      SetItemNew(d, key, value, other);
    case Some(i) =>
      SetItemExisting(d, key, value, other, i);
  }

  /** Setting a key without '&' or '=' to a value without '&' keeps an
      encodable dictionary encodable. */
  lemma SetItemEncodable(d: MultiValueDict, key: string, value: string)
    requires Encodable(d)
    requires '&' !in key && '=' !in key && '&' !in value
    ensures Encodable(SetItem(d, key, value))
  {
    SetItemValues(d, key, value, key);
    match FindKey(d, key)
    case None =>
    case Some(i) =>
      var r := d[i := (key, [value])];
      assert forall j :: 0 <= j < |r| ==> r[j] == (if j == i then (key, [value]) else d[j]);
  }
}
