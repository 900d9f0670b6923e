/**
 * Request parameters and bodies. Every endpoint starts a dict with its
 * mandatory entries and then inserts each optional argument under its own
 * test: `if x is not None:` (so 0, False and "" are sent) or `if x:` (so
 * they are not). A `Field` records a key, its value and that test;
 * `Assemble` is the dict the insertions produce.
 */
module Payload {
  import opened Wrappers
  import opened Assoc
  import opened Json

  /** The test guarding an insertion. */
  datatype Rule =
    | Always        // part of the dict literal
    | WhenTruthy    // `if x:`
    | WhenNotNone   // `if x is not None:`

  datatype Field = Field(key: string, value: Json, rule: Rule)

  predicate Keep(f: Field)
  {
    match f.rule
    case Always => true
    case WhenTruthy => Truthy(f.value)
    case WhenNotNone => f.value != JNull
  }

  ghost predicate DistinctKeys(fs: seq<Field>)
  {
    forall i, j :: 0 <= i < j < |fs| ==> fs[i].key != fs[j].key
  }

  /** One guarded insertion, `if <test>: d[key] = value`. */
  function Guarded(d: Assoc<Json>, f: Field): Assoc<Json>
  {
    if Keep(f) then Put(d, f.key, f.value) else d
  }

  /** The dict after the insertions, in order. */
  function Assemble(fs: seq<Field>): (d: Assoc<Json>)
  {
    if fs == [] then [] else Guarded(Assemble(fs[..|fs| - 1]), fs[|fs| - 1])
  }

  /** Only the fields' own keys can appear. */
  lemma {:induction false} AssembleKeys(fs: seq<Field>, k: string)
    requires forall i :: 0 <= i < |fs| ==> fs[i].key != k
    ensures k !in Keys(Assemble(fs))
  {
    if fs != [] {
      var n := |fs| - 1;
      var init := fs[..n];
      forall i | 0 <= i < n ensures init[i].key != k {
        assert init[i] == fs[i];
      }
      AssembleKeys(init, k);
      var d := Assemble(init);
      assert Assemble(fs) == Guarded(d, fs[n]);
      if Keep(fs[n]) {
        PutKeys(d, fs[n].key, fs[n].value);
      }
    }
  }

  /** One more field: the dict after the first `j` fields, with that field's insertion. */
  lemma AssembleStep(fs: seq<Field>, j: nat)
    requires j < |fs|
    ensures Assemble(fs[..j + 1]) == Guarded(Assemble(fs[..j]), fs[j])
  {
    assert fs[..j + 1][..j] == fs[..j];
  }

  /**
   * Per field: the dict holds its value when the test passes, and has no
   * such key otherwise.
   */
  lemma {:induction false} AssembleLookup(fs: seq<Field>, i: nat)
    decreases |fs|
    requires DistinctKeys(fs) && i < |fs|
    ensures Get(Assemble(fs), fs[i].key) == if Keep(fs[i]) then Some(fs[i].value) else None
  {
    var n := |fs| - 1;
    var init := fs[..n];
    AssembleStep(fs, n);
    assert fs[..n + 1] == fs;
    if i < n {
      assert forall a :: 0 <= a < n ==> init[a] == fs[a];
      AssembleLookup(init, i);
      if Keep(fs[n]) {
        PutOther(Assemble(init), fs[n].key, fs[n].value, fs[i].key);
      }
    } else if !Keep(fs[n]) {
      assert forall a :: 0 <= a < n ==> init[a] == fs[a];
      AssembleKeys(init, fs[n].key);
    }
  }

  /** A key that is none of the fields' keys is never sent. */
  lemma AssembleAbsent(fs: seq<Field>, k: string)
    requires forall i :: 0 <= i < |fs| ==> fs[i].key != k
    ensures Get(Assemble(fs), k) == None
  {
    AssembleKeys(fs, k);
  }
}
