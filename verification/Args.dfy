/** Container arguments of the operands: flag keys, the value a command line gives to a flag,
    and the keyed merge of argument lists. */
module Args {
  import opened Text

  /** The key of an argument: everything before the first `=`, the whole flag when there is
      none, and "" for a positional argument. */
  function FlagKey(arg: string): string {
    if !HasPrefix(arg, "--") then ""
    else
      var i := IndexOf(arg, '=');
      if i >= 0 then arg[..i] else arg
  }

  /** A flag with a value and the bare flag have the same key, whatever the value, and no positional
      argument has one. */
  lemma FlagKeyExact(name: string, value: string, arg: string)
    requires '=' !in name
    ensures FlagKey("--" + name + "=" + value) == "--" + name == FlagKey("--" + name)
    ensures FlagKey(arg) == "" <==> !HasPrefix(arg, "--")
  {
    var flag, key := "--" + name + "=" + value, "--" + name;
    assert flag[..2] == "--" && key[..2] == "--";
    var i := IndexOf(flag, '=');
    assert flag[|key|] == '=' && flag[..|key|] == key;
    assert forall j :: 0 <= j < |key| ==> key[j] != '=' && flag[j] == key[j];
    assert i == |key|;
    if HasPrefix(arg, "--") && '=' in arg {
      assert arg[0] == '-' && arg[1] == '-';
    }
  }

  // ---------- the keyed merge of argument lists ----------

  /** The last position at which `key` is set, or -1. */
  function LastIndex(args: seq<string>, key: string): (i: int)
    ensures -1 <= i < |args|
    ensures i >= 0 ==> FlagKey(args[i]) == key
    ensures forall j :: i < j < |args| ==> FlagKey(args[j]) != key
  {
    hide FlagKey;
    if args == [] then -1
    else if FlagKey(args[|args| - 1]) == key then |args| - 1
    else
      var rest := args[..|args| - 1];
      assert forall j :: 0 <= j < |rest| ==> rest[j] == args[j];
      LastIndex(rest, key)
  }

  /** The value a command line gives to a flag: its last occurrence wins. */
  function Effective(args: seq<string>, key: string): Option<string> {
    var i := LastIndex(args, key);
    if i >= 0 then Some(args[i]) else None
  }

  predicate Sets(args: seq<string>, key: string) {
    LastIndex(args, key) >= 0
  }

  function MergeOne(args: seq<string>, override: string): seq<string> {
    var key := FlagKey(override);
    var i := LastIndex(args, key);
    if key == "" then args
    else if i >= 0 then args[i := override]
    else args + [override]
  }

  /** The specification of `mergeContainerArgs`: overrides are applied one after the other. */
  function Merge(base: seq<string>, overrides: seq<string>): seq<string>
    decreases |overrides|
  {
    if overrides == [] then base
    else Merge(MergeOne(base, overrides[0]), overrides[1..])
  }

  ghost predicate IndexOfKeys(keyIndex: map<string, nat>, args: seq<string>) {
    && (forall key :: key in keyIndex ==> key != "" && keyIndex[key] == LastIndex(args, key))
    && (forall key :: key != "" && Sets(args, key) ==> key in keyIndex)
  }

  lemma LastIndexIs(args: seq<string>, key: string, i: nat)
    requires i < |args| && FlagKey(args[i]) == key
    requires forall j :: i < j < |args| ==> FlagKey(args[j]) != key
    ensures LastIndex(args, key) == i
  {
    hide FlagKey;
  }

  lemma LastIndexNone(args: seq<string>, key: string)
    requires forall j :: 0 <= j < |args| ==> FlagKey(args[j]) != key
    ensures LastIndex(args, key) == -1
  {
    hide FlagKey;
  }

  lemma LastIndexAppend(args: seq<string>, arg: string, key: string)
    ensures LastIndex(args + [arg], key) == if FlagKey(arg) == key then |args| else LastIndex(args, key)
  {
    hide FlagKey;
    assert (args + [arg])[..|args|] == args;
  }

  lemma LastIndexUpdate(args: seq<string>, i: nat, arg: string, key: string)
    requires i < |args| && FlagKey(args[i]) == FlagKey(arg)
    ensures LastIndex(args[i := arg], key) == LastIndex(args, key)
  {
    hide FlagKey;
    var l := LastIndex(args, key);
    if l >= 0 {
      LastIndexIs(args[i := arg], key, l);
    } else {
      LastIndexNone(args[i := arg], key);
    }
  }

  /** `mergeContainerArgs` as the operator runs it, with an index from flag keys to positions. */
  method MergeContainerArgs(base: seq<string>, overrides: seq<string>) returns (result: seq<string>)
    ensures result == Merge(base, overrides)
  {
    hide FlagKey, LastIndex;
    if |overrides| == 0 {
      return base;
    }
    var keyIndex: map<string, nat> := map[];
    EmptyIndex();
    assert base[..0] == [];
    for i := 0 to |base|
      invariant IndexOfKeys(keyIndex, base[..i])
    {
      var key := FlagKey(base[i]);
      IndexExtend(keyIndex, base[..i], base[i]);
      assert base[..i] + [base[i]] == base[..i + 1];
      if key != "" {
        keyIndex := keyIndex[key := i];
      }
    }
    assert base[..|base|] == base;
    result := base;
    assert overrides[0..] == overrides;
    for i := 0 to |overrides|
      invariant IndexOfKeys(keyIndex, result)
      invariant Merge(base, overrides) == Merge(result, overrides[i..])
    {
      var key := FlagKey(overrides[i]);
      assert overrides[i..][1..] == overrides[i + 1..];
      if key != "" {
        if key in keyIndex {
          IndexUpdate(keyIndex, result, keyIndex[key], overrides[i]);
          result := result[keyIndex[key] := overrides[i]];
        } else {
          assert !Sets(result, key);
          IndexExtend(keyIndex, result, overrides[i]);
          result := result + [overrides[i]];
          keyIndex := keyIndex[key := |result| - 1];
        }
      }
    }
  }

  lemma EmptyIndex()
    ensures IndexOfKeys(map[], [])
  {
  }

  lemma IndexExtend(keyIndex: map<string, nat>, args: seq<string>, arg: string)
    requires IndexOfKeys(keyIndex, args)
    ensures FlagKey(arg) == "" ==> IndexOfKeys(keyIndex, args + [arg])
    ensures FlagKey(arg) != "" ==> IndexOfKeys(keyIndex[FlagKey(arg) := |args|], args + [arg])
  {
    hide FlagKey, LastIndex;
    forall key ensures LastIndex(args + [arg], key) == if FlagKey(arg) == key then |args| else LastIndex(args, key) {
      LastIndexAppend(args, arg, key);
    }
  }

  lemma IndexUpdate(keyIndex: map<string, nat>, args: seq<string>, i: nat, arg: string)
    requires IndexOfKeys(keyIndex, args)
    requires i < |args| && FlagKey(args[i]) == FlagKey(arg)
    ensures IndexOfKeys(keyIndex, args[i := arg])
  {
    hide FlagKey, LastIndex;
    forall key ensures LastIndex(args[i := arg], key) == LastIndex(args, key) {
      LastIndexUpdate(args, i, arg, key);
    }
  }

  // ---------- laws of the merge ----------

  /** Merging two override lists one after the other is merging their concatenation. */
  lemma {:induction false} MergeComposes(base: seq<string>, o1: seq<string>, o2: seq<string>)
    ensures Merge(base, o1 + o2) == Merge(Merge(base, o1), o2)
    decreases |o1|
  {
    hide MergeOne;
    if o1 == [] {
      assert o1 + o2 == o2;
    } else {
      assert (o1 + o2)[1..] == o1[1..] + o2;
      MergeComposes(MergeOne(base, o1[0]), o1[1..], o2);
    }
  }

  lemma MergeOneEffect(args: seq<string>, o: string, key: string)
    requires key != ""
    ensures Effective(MergeOne(args, o), key) == if FlagKey(o) == key then Some(o) else Effective(args, key)
    ensures |args| <= |MergeOne(args, o)|
    ensures forall j :: 0 <= j < |args| ==> FlagKey(MergeOne(args, o)[j]) == FlagKey(args[j])
    ensures forall j :: 0 <= j < |args| && FlagKey(args[j]) == "" ==> MergeOne(args, o)[j] == args[j]
  {
    hide FlagKey, LastIndex;
    var i := LastIndex(args, FlagKey(o));
    if FlagKey(o) != "" {
      if i >= 0 {
        LastIndexUpdate(args, i, o, key);
      } else {
        LastIndexAppend(args, o, key);
      }
    }
  }

  lemma {:induction false} EffectiveCons(o: string, rest: seq<string>, key: string)
    ensures Effective([o] + rest, key) ==
      if Sets(rest, key) then Effective(rest, key) else if FlagKey(o) == key then Some(o) else None
  {
    hide FlagKey, LastIndex;
    var all := [o] + rest;
    var i := LastIndex(rest, key);
    if i >= 0 {
      LastIndexIs(all, key, i + 1);
    } else if FlagKey(o) == key {
      LastIndexIs(all, key, 0);
    } else {
      LastIndexNone(all, key);
    }
  }

  /** For every flag the override's last value wins, else the base's; nothing of the base is lost
      and its positional arguments keep their place. */
  lemma {:induction false} MergeEffect(base: seq<string>, overrides: seq<string>, key: string)
    requires key != ""
    ensures Effective(Merge(base, overrides), key) ==
      if Sets(overrides, key) then Effective(overrides, key) else Effective(base, key)
    ensures |base| <= |Merge(base, overrides)|
    ensures forall j :: 0 <= j < |base| ==> FlagKey(Merge(base, overrides)[j]) == FlagKey(base[j])
    ensures forall j :: 0 <= j < |base| && FlagKey(base[j]) == "" ==> Merge(base, overrides)[j] == base[j]
    decreases |overrides|
  {
    if overrides != [] {
      hide FlagKey, LastIndex, MergeOne;
      var o, rest := overrides[0], overrides[1..];
      assert overrides == [o] + rest;
      MergeOneEffect(base, o, key);
      MergeEffect(MergeOne(base, o), rest, key);
      EffectiveCons(o, rest, key);
    }
  }

  /** What merging leaves at position `j` when every override key is already set: the last
      occurrence of a key takes the override's last value, everything else stays. */
  function MergedAt(base: seq<string>, overrides: seq<string>, j: nat): string
    requires j < |base|
  {
    var key := FlagKey(base[j]);
    if key != "" && LastIndex(base, key) == j && Sets(overrides, key) then Effective(overrides, key).value
    else base[j]
  }

  lemma MergedAtCons(base: seq<string>, o: string, rest: seq<string>, j: nat)
    requires j < |base| && (FlagKey(o) != "" ==> Sets(base, FlagKey(o)))
    ensures |MergeOne(base, o)| == |base|
    ensures MergedAt(base, [o] + rest, j) == MergedAt(MergeOne(base, o), rest, j)
  {
    hide FlagKey, LastIndex;
    var key := FlagKey(base[j]);
    EffectiveCons(o, rest, key);
    if FlagKey(o) != "" {
      LastIndexUpdate(base, LastIndex(base, FlagKey(o)), o, key);
    }
  }

  ghost predicate SetsAll(base: seq<string>, overrides: seq<string>) {
    forall i :: 0 <= i < |overrides| && FlagKey(overrides[i]) != "" ==> Sets(base, FlagKey(overrides[i]))
  }

  lemma SetsAllNext(base: seq<string>, o: string, rest: seq<string>)
    requires SetsAll(base, [o] + rest)
    ensures FlagKey(o) != "" ==> Sets(base, FlagKey(o))
    ensures SetsAll(MergeOne(base, o), rest)
  {
    hide FlagKey, LastIndex;
    assert ([o] + rest)[0] == o;
    forall i | 0 <= i < |rest| && FlagKey(rest[i]) != "" ensures Sets(MergeOne(base, o), FlagKey(rest[i])) {
      assert ([o] + rest)[i + 1] == rest[i];
      if FlagKey(o) != "" {
        LastIndexUpdate(base, LastIndex(base, FlagKey(o)), o, FlagKey(rest[i]));
      }
    }
  }

  lemma {:induction false} MergeWithin(base: seq<string>, overrides: seq<string>, j: nat)
    requires SetsAll(base, overrides) && j < |base|
    ensures |Merge(base, overrides)| == |base|
    ensures Merge(base, overrides)[j] == MergedAt(base, overrides, j)
    decreases |overrides|
  {
    hide FlagKey, MergeOne, SetsAll;
    if overrides != [] {
      hide MergedAt;
      var o, rest := overrides[0], overrides[1..];
      assert overrides == [o] + rest;
      SetsAllNext(base, o, rest);
      MergedAtCons(base, o, rest, j);
      MergeWithin(MergeOne(base, o), rest, j);
    }
  }

  /** A list merged with overrides that agree with it on every key they set is unchanged. */
  lemma MergeAgreeing(base: seq<string>, overrides: seq<string>)
    requires forall key :: key != "" && Sets(overrides, key) ==> Effective(base, key) == Effective(overrides, key)
    ensures Merge(base, overrides) == base
  {
    hide FlagKey, LastIndex, Merge;
    forall i | 0 <= i < |overrides| && FlagKey(overrides[i]) != "" ensures Sets(base, FlagKey(overrides[i])) {
      SetsWhereFound(overrides, i);
    }
    if base == [] {
      MergeNothing(overrides);
    } else {
      MergeWithin(base, overrides, 0);
    }
    forall j | 0 <= j < |base| ensures |Merge(base, overrides)| == |base| && Merge(base, overrides)[j] == base[j] {
      MergeWithin(base, overrides, j);
    }
  }

  lemma {:induction false} MergeNothing(overrides: seq<string>)
    requires SetsAll([], overrides)
    ensures Merge([], overrides) == []
  {
    hide FlagKey;
    if overrides != [] {
      MergeNothing(overrides[1..]);
      assert overrides == [overrides[0]] + overrides[1..];
      SetsAllNext([], overrides[0], overrides[1..]);
    }
  }

  /** A list merged into itself is itself, duplicate flags included. */
  lemma MergeSelf(base: seq<string>)
    ensures Merge(base, base) == base
  {
    hide LastIndex;
    MergeAgreeing(base, base);
  }

  lemma SetsWhereFound(args: seq<string>, i: nat)
    requires i < |args|
    ensures Sets(args, FlagKey(args[i]))
  {
    hide FlagKey;
  }

  /** Merging the same overrides twice equals merging them once. */
  lemma MergeIdempotent(base: seq<string>, overrides: seq<string>)
    ensures Merge(Merge(base, overrides), overrides) == Merge(base, overrides)
  {
    hide FlagKey, LastIndex, Merge;
    var m := Merge(base, overrides);
    forall key | key != "" && Sets(overrides, key) ensures Effective(m, key) == Effective(overrides, key) {
      MergeEffect(base, overrides, key);
    }
    MergeAgreeing(m, overrides);
  }

  // ---------- what stands where after a merge ----------

  /** The flag keys that the overrides add, in the order in which they first occur. */
  function NewKeys(base: seq<string>, overrides: seq<string>): seq<string> {
    if overrides == [] then []
    else
      var before := NewKeys(base, overrides[..|overrides| - 1]);
      var key := FlagKey(overrides[|overrides| - 1]);
      if key == "" || Sets(base, key) || key in before then before else before + [key]
  }

  /** The first position at which `key` is set, or the length. */
  function FirstIndex(args: seq<string>, key: string): (i: nat)
    ensures i <= |args|
    ensures i < |args| ==> FlagKey(args[i]) == key
    ensures forall j :: 0 <= j < i ==> FlagKey(args[j]) != key
  {
    hide FlagKey;
    if args == [] then 0
    else if FlagKey(args[0]) == key then 0
    else
      assert args == [args[0]] + args[1..];
      1 + FirstIndex(args[1..], key)
  }

  /** What the list of added keys is, without naming how it is computed: each key once, exactly those
      that the overrides set and the base does not, by first occurrence. */
  lemma {:induction false} NewKeysExact(base: seq<string>, overrides: seq<string>)
    ensures var keys := NewKeys(base, overrides);
      && (forall i, j :: 0 <= i < j < |keys| ==> keys[i] != keys[j])
      && (forall key :: key in keys <==> key != "" && Sets(overrides, key) && !Sets(base, key))
      && (forall i, j :: 0 <= i < j < |keys| ==> FirstIndex(overrides, keys[i]) < FirstIndex(overrides, keys[j]))
    decreases |overrides|
  {
    hide FlagKey, LastIndex, FirstIndex;
    if overrides != [] {
      var n := |overrides| - 1;
      var before, o := overrides[..n], overrides[n];
      assert overrides == before + [o];
      NewKeysExact(base, before);
      forall key ensures Sets(overrides, key) <==> Sets(before, key) || FlagKey(o) == key {
        LastIndexAppend(before, o, key);
      }
      var known, keys := NewKeys(base, before), NewKeys(base, overrides);
      forall i | 0 <= i < |known|
        ensures FirstIndex(overrides, known[i]) == FirstIndex(before, known[i]) < n
      {
        assert known[i] in known;
        FirstIndexPrefix(before, o, known[i]);
      }
      if keys != known {
        assert !Sets(before, FlagKey(o));
        FirstIndexNew(before, o);
      }
    }
  }

  lemma FirstIndexIs(args: seq<string>, key: string, i: nat)
    requires i < |args| && FlagKey(args[i]) == key && forall j :: 0 <= j < i ==> FlagKey(args[j]) != key
    ensures FirstIndex(args, key) == i
  {
    hide FlagKey;
  }

  lemma FirstIndexPrefix(args: seq<string>, o: string, key: string)
    requires Sets(args, key)
    ensures FirstIndex(args + [o], key) == FirstIndex(args, key) < |args|
  {
    hide FlagKey, FirstIndex;
    var i := FirstIndex(args, key);
    assert i < |args|;
    FirstIndexIs(args + [o], key, i);
  }

  lemma FirstIndexNew(args: seq<string>, o: string)
    requires !Sets(args, FlagKey(o))
    ensures FirstIndex(args + [o], FlagKey(o)) == |args|
  {
    hide FlagKey, FirstIndex;
    FirstIndexIs(args + [o], FlagKey(o), |args|);
  }

  /** What stands at position j of the merged list. */
  function Expected(base: seq<string>, overrides: seq<string>, j: nat): Option<string>
    requires j < |base| + |NewKeys(base, overrides)|
  {
    if j < |base| then Some(MergedAt(base, overrides, j))
    else Effective(overrides, NewKeys(base, overrides)[j - |base|])
  }

  ghost predicate AsExpected(base: seq<string>, overrides: seq<string>, r: seq<string>) {
    && |r| == |base| + |NewKeys(base, overrides)|
    && forall j :: 0 <= j < |r| ==> Expected(base, overrides, j) == Some(r[j])
  }

  /** The key at a position of a list that is as expected. */
  lemma ExpectedKey(base: seq<string>, overrides: seq<string>, r: seq<string>, j: nat)
    requires AsExpected(base, overrides, r) && j < |r|
    ensures FlagKey(r[j]) == if j < |base| then FlagKey(base[j]) else NewKeys(base, overrides)[j - |base|]
  {
    hide FlagKey, LastIndex, NewKeys;
    assert Expected(base, overrides, j) == Some(r[j]);
  }

  /** Where a key is last set in a list that is as expected. */
  lemma ExpectedLast(base: seq<string>, overrides: seq<string>, r: seq<string>, key: string)
    requires AsExpected(base, overrides, r) && key != ""
    ensures Sets(base, key) ==> LastIndex(r, key) == LastIndex(base, key)
    ensures forall p :: 0 <= p < |NewKeys(base, overrides)| && NewKeys(base, overrides)[p] == key ==>
      LastIndex(r, key) == |base| + p
    ensures !Sets(base, key) && key !in NewKeys(base, overrides) ==> LastIndex(r, key) == -1
  {
    hide FlagKey, LastIndex, NewKeys, AsExpected, FirstIndex;
    var keys := NewKeys(base, overrides);
    AsExpectedLength(base, overrides, r);
    NewKeysExact(base, overrides);
    forall j | 0 <= j < |r| ensures FlagKey(r[j]) == if j < |base| then FlagKey(base[j]) else keys[j - |base|] {
      ExpectedKey(base, overrides, r, j);
    }
    if Sets(base, key) {
      assert key !in keys;
      LastIndexIs(r, key, LastIndex(base, key));
    } else if key in keys {
      var p :| 0 <= p < |keys| && keys[p] == key;
      LastIndexIs(r, key, |base| + p);
    } else {
      LastIndexNone(r, key);
    }
  }

  lemma AsExpectedLength(base: seq<string>, overrides: seq<string>, r: seq<string>)
    requires AsExpected(base, overrides, r)
    ensures |r| == |base| + |NewKeys(base, overrides)|
  {
  }

  /** The value that the overrides with one more at the end give. */
  lemma EffectiveSnoc(overrides: seq<string>, o: string, key: string)
    ensures Effective(overrides + [o], key) == if FlagKey(o) == key then Some(o) else Effective(overrides, key)
  {
    hide FlagKey, LastIndex;
    LastIndexAppend(overrides, o, key);
  }

  lemma NewKeysSnoc(base: seq<string>, overrides: seq<string>, o: string)
    ensures NewKeys(base, overrides + [o]) ==
      var keys, key := NewKeys(base, overrides), FlagKey(o);
      if key == "" || Sets(base, key) || key in keys then keys else keys + [key]
  {
    hide FlagKey, LastIndex;
    assert (overrides + [o])[..|overrides|] == overrides;
  }

  lemma MergedAtSnoc(base: seq<string>, overrides: seq<string>, o: string, j: nat)
    requires j < |base|
    ensures MergedAt(base, overrides + [o], j) ==
      if FlagKey(o) != "" && LastIndex(base, FlagKey(o)) == j then o else MergedAt(base, overrides, j)
  {
    hide FlagKey, LastIndex;
    var key := FlagKey(base[j]);
    EffectiveSnoc(overrides, o, key);
    LastIndexAppend(overrides, o, key);
  }

  lemma ExpectedSnoc(base: seq<string>, overrides: seq<string>, o: string, j: nat)
    requires j < |base| + |NewKeys(base, overrides)|
    ensures |NewKeys(base, overrides)| <= |NewKeys(base, overrides + [o])|
    ensures Expected(base, overrides + [o], j) ==
      var key := FlagKey(o);
      if key != "" && (if j < |base| then LastIndex(base, key) == j else NewKeys(base, overrides)[j - |base|] == key)
      then Some(o) else Expected(base, overrides, j)
  {
    hide FlagKey, LastIndex, NewKeys, MergedAt, Effective;
    NewKeysSnoc(base, overrides, o);
    if j < |base| {
      MergedAtSnoc(base, overrides, o, j);
    } else {
      EffectiveSnoc(overrides, o, NewKeys(base, overrides)[j - |base|]);
      NewKeysNotEmpty(base, overrides);
    }
  }

  lemma {:induction false} NewKeysNotEmpty(base: seq<string>, overrides: seq<string>)
    ensures forall p :: 0 <= p < |NewKeys(base, overrides)| ==>
      NewKeys(base, overrides)[p] != "" && !Sets(base, NewKeys(base, overrides)[p])
  {
    hide FlagKey, LastIndex;
    if overrides != [] {
      NewKeysNotEmpty(base, overrides[..|overrides| - 1]);
    }
  }

  lemma ExpectedStep(base: seq<string>, overrides: seq<string>, o: string, r: seq<string>)
    requires AsExpected(base, overrides, r)
    ensures AsExpected(base, overrides + [o], MergeOne(r, o))
  {
    hide FlagKey, LastIndex, NewKeys, Expected;
    var keys, key := NewKeys(base, overrides), FlagKey(o);
    NewKeysSnoc(base, overrides, o);
    NewKeysNotEmpty(base, overrides);
    if key != "" {
      ExpectedLast(base, overrides, r, key);
    }
    var i := LastIndex(r, key);
    var r' := MergeOne(r, o);
    forall j | 0 <= j < |r| ensures Expected(base, overrides + [o], j) == Some(r'[j]) {
      ExpectedSnoc(base, overrides, o, j);
      if key != "" && j >= |base| && keys[j - |base|] == key {
        assert i == j;
      }
      if key != "" && i == j {
        LastIsThere(base, overrides, r, key, j);
      }
    }
    if |r'| > |r| {
      ExpectedNew(base, overrides, o);
    }
  }

  /** Where a key is last set, it is last set in the base, or it is that added key. */
  lemma LastIsThere(base: seq<string>, overrides: seq<string>, r: seq<string>, key: string, j: nat)
    requires AsExpected(base, overrides, r) && key != "" && j < |r| && LastIndex(r, key) == j
    ensures |r| == |base| + |NewKeys(base, overrides)|
    ensures if j < |base| then LastIndex(base, key) == j else NewKeys(base, overrides)[j - |base|] == key
  {
    hide FlagKey, LastIndex, NewKeys, Expected;
    ExpectedLast(base, overrides, r, key);
    ExpectedKey(base, overrides, r, j);
    if j < |base| {
      assert Sets(base, key);
    }
  }

  /** An override that is appended is its own value. */
  lemma ExpectedNew(base: seq<string>, overrides: seq<string>, o: string)
    requires FlagKey(o) != "" && !Sets(base, FlagKey(o)) && FlagKey(o) !in NewKeys(base, overrides)
    ensures |NewKeys(base, overrides + [o])| == |NewKeys(base, overrides)| + 1
    ensures Expected(base, overrides + [o], |base| + |NewKeys(base, overrides)|) == Some(o)
  {
    hide FlagKey, LastIndex, NewKeys, Effective;
    NewKeysSnoc(base, overrides, o);
    EffectiveSnoc(overrides, o, FlagKey(o));
  }

  /** The merged list, position by position, for all lists.  Within the base, the last occurrence of each
      key that the overrides set takes their last value and everything else stays; after it stand
      exactly the flags that the base does not set, each once, by first occurrence, with their last
      value. */
  lemma {:induction false} MergeExact(base: seq<string>, overrides: seq<string>)
    ensures AsExpected(base, overrides, Merge(base, overrides))
    decreases |overrides|
  {
    hide FlagKey, MergeOne, AsExpected;
    if overrides == [] {
      NothingMerged(base);
    } else {
      var n := |overrides| - 1;
      var before, o := overrides[..n], overrides[n];
      assert overrides == before + [o];
      MergeExact(base, before);
      MergeComposes(base, before, [o]);
      assert [o][1..] == [];
      assert Merge(Merge(base, before), [o]) == MergeOne(Merge(base, before), o);
      ExpectedStep(base, before, o, Merge(base, before));
    }
  }

  lemma NothingMerged(base: seq<string>)
    ensures AsExpected(base, [], base)
  {
    hide FlagKey;
  }
}
