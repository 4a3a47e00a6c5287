/** Moving to the next key of a locale table, as both language toggles do:
    `keys[(keys.indexOf(current) + 1) % keys.length]`. */
module LocaleCycle {
  import opened Text

  /** `keys.indexOf(k)`: the first index holding `k`, or -1. */
  function KeyIndex(keys: seq<string>, k: string): (r: int)
    ensures -1 <= r < |keys|
    ensures r == -1 <==> k !in keys
    ensures r >= 0 ==> keys[r] == k && forall j :: 0 <= j < r ==> keys[j] != k
  {
    if keys == [] then -1
    else if keys[0] == k then 0
    else
      var i := KeyIndex(keys[1..], k);
      if i == -1 then -1 else i + 1
  }

  /** The key after `current`, wrapping from the last to the first; the first
      key when `current` is not a key at all. As `i + 1` lies between 0 and
      the number of keys, `(i + 1) % keys.length` is `i + 1` below that
      number and 0 at it. */
  function NextKey(keys: seq<string>, current: string): (r: string)
    requires keys != []
    ensures r in keys
    ensures current !in keys ==> r == keys[0]
  {
    var i := KeyIndex(keys, current);
    if i + 1 == |keys| then keys[0] else keys[i + 1]
  }

  /** With distinct keys, the key after `keys[i]` is `keys[i + 1]`, or the
      first key after the last. */
  lemma NextKeyAt(keys: seq<string>, i: nat)
    requires i < |keys| && NoDup(keys)
    ensures NextKey(keys, keys[i]) == if i + 1 == |keys| then keys[0] else keys[i + 1]
  {
    assert KeyIndex(keys, keys[i]) == i;
  }

  /** The key reached from `k` after `n` moves. */
  function Iterate(keys: seq<string>, k: string, n: nat): string
    requires keys != []
  {
    if n == 0 then k else NextKey(keys, Iterate(keys, k, n - 1))
  }

  /** The index after `i` among `len` indices, wrapping to 0. */
  function NextIndex(len: nat, i: nat): nat {
    if i + 1 == len then 0 else i + 1
  }

  /** The index reached from `i` after `n` moves. */
  function Advance(len: nat, i: nat, n: nat): (r: nat)
    requires i < len
    ensures r < len
  {
    if n == 0 then i else NextIndex(len, Advance(len, i, n - 1))
  }

  /** Up to a full cycle of moves wrap around at most once. */
  lemma {:induction false} AdvanceWrapsOnce(len: nat, i: nat, n: nat)
    requires i < len && n <= len
    ensures Advance(len, i, n) == if i + n < len then i + n else i + n - len
  {
    if n > 0 {
      AdvanceWrapsOnce(len, i, n - 1);
    }
  }

  /** With distinct keys, moving from a key follows the indices. */
  lemma {:induction false} IterateAdvance(keys: seq<string>, i: nat, n: nat)
    requires i < |keys| && NoDup(keys)
    ensures Iterate(keys, keys[i], n) == keys[Advance(|keys|, i, n)]
  {
    if n > 0 {
      var a := Advance(|keys|, i, n - 1);
      IterateAdvance(keys, i, n - 1);
      assert Iterate(keys, keys[i], n) == NextKey(keys, keys[a]);
      NextKeyAt(keys, a);
    }
  }

  /** With distinct keys, up to a full cycle of moves from the key at index
      `i` land on the key `n` places further on, wrapping once. */
  lemma IterateIndex(keys: seq<string>, i: nat, n: nat)
    requires i < |keys| && n <= |keys| && NoDup(keys)
    ensures Iterate(keys, keys[i], n) ==
      if i + n < |keys| then keys[i + n] else keys[i + n - |keys|]
  {
    IterateAdvance(keys, i, n);
    AdvanceWrapsOnce(|keys|, i, n);
  }

  /** Moving as many times as there are keys returns to the start, and no
      smaller positive number of moves does. */
  lemma FullCycle(keys: seq<string>, k: string, n: nat)
    requires k in keys && NoDup(keys)
    requires 0 < n <= |keys|
    ensures Iterate(keys, k, n) == k <==> n == |keys|
  {
    var i :| 0 <= i < |keys| && keys[i] == k;
    IterateIndex(keys, i, n);
  }
}
