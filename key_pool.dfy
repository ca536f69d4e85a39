/** Loading the credential pool of annotator.py: the configured keys are read
    from the environment (a missing variable reads as None), the falsy ones
    are dropped, and an empty pool ends the program before any document is
    looked at. */
module KeyPool {
  import opened Service

  /** A key survives the filter `if key` when it is set and non-empty. */
  predicate IsUsable(raw: Option<string>) {
    raw.Some? && raw.value != ""
  }

  /** [key for key in keys if key]. */
  function UsableKeys(raw: seq<Option<string>>): (pool: seq<string>)
    ensures |pool| <= |raw|
    ensures forall i :: 0 <= i < |pool| ==> pool[i] != ""
    ensures forall i :: 0 <= i < |raw| && IsUsable(raw[i]) ==> raw[i].value in pool
  {
    if raw == [] then []
    else (if IsUsable(raw[0]) then [raw[0].value] else []) + UsableKeys(raw[1..])
  }

  /** Filtering commutes with concatenation, so the pool keeps the surviving
      keys in the order in which they were configured. */
  lemma {:induction false} UsableKeysAppend(a: seq<Option<string>>, b: seq<Option<string>>)
    ensures UsableKeys(a + b) == UsableKeys(a) + UsableKeys(b)
  {
    if a == [] {
      assert a + b == b;
    } else {
      assert (a + b)[1..] == a[1..] + b;
      UsableKeysAppend(a[1..], b);
    }
  }

  /** Every pool entry is one of the configured values. */
  lemma {:induction false} UsableKeysFromRaw(raw: seq<Option<string>>)
    ensures forall k :: k in UsableKeys(raw) ==> Some(k) in raw
  {
    if raw != [] {
      UsableKeysFromRaw(raw[1..]);
    }
  }

  /** The pool is empty exactly when no configured key is usable. */
  lemma {:induction false} UsableKeysEmptyIff(raw: seq<Option<string>>)
    ensures UsableKeys(raw) == [] <==> forall i :: 0 <= i < |raw| ==> !IsUsable(raw[i])
  {
    if raw != [] {
      UsableKeysEmptyIff(raw[1..]);
      assert forall i :: 1 <= i < |raw| ==> raw[i] == raw[1..][i - 1];
    }
  }

  /** Startup: the pool, or None when the program exits for lack of keys. */
  function LoadPool(raw: seq<Option<string>>): (pool: Option<seq<string>>)
    ensures pool.None? <==> forall i :: 0 <= i < |raw| ==> !IsUsable(raw[i])
    ensures pool.Some? ==> |pool.value| > 0 && pool.value == UsableKeys(raw)
  {
    UsableKeysEmptyIff(raw);
    var keys := UsableKeys(raw);
    if keys == [] then None else Some(keys)
  }
}
