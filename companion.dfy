/** The phone-side companion script: the appmessage handler merges each
    payload value into the in-memory array of its key unless it is already
    there, remembers which keys changed, and writes only those keys back to
    local storage; the webviewclosed handler clears storage on "reset".

    Values are compared by value, which is what indexOf's === does for
    numbers and strings (NaN aside); array values, which JavaScript compares
    by identity, are not modelled. The JSON text that local storage holds is
    abstracted to the array it encodes. */
module Companion {

  predicate NoDuplicates<T(==)>(s: seq<T>)
  {
    forall i, j :: 0 <= i < j < |s| ==> s[i] != s[j]
  }

  /** Where the merge loop stands: the arrays (memoryArray), the list of
      changed keys (updated) and whether the loop is still running. It stops
      for good when memoryArray[v] is undefined, where indexOf throws a
      TypeError: the arrays keep what was pushed so far. */
  datatype MergeState<V> = MergeState(memory: map<string, seq<V>>, updated: seq<string>, completed: bool)

  /** One iteration of the for...in loop, for key v and value x. */
  function MergeStep<V(==)>(r: MergeState<V>, v: string, x: V): MergeState<V>
  {
    if !r.completed then r
    else if v !in r.memory then r.(completed := false)
    else if x in r.memory[v] then r
    else r.(memory := r.memory[v := r.memory[v] + [x]],
            updated := if v in r.updated then r.updated else r.updated + [v])
  }

  /** The merge loop run over the whole payload, in iteration order. */
  function Merged<V(==)>(memory: map<string, seq<V>>, payload: seq<(string, V)>): (r: MergeState<V>)
    ensures r.memory.Keys == memory.Keys
    ensures forall k :: k in r.updated ==> k in memory
    decreases |payload|
  {
    if payload == [] then MergeState(memory, [], true)
    else
      var last := payload[|payload| - 1];
      MergeStep(Merged(memory, payload[..|payload| - 1]), last.0, last.1)
  }

  /** Once the loop has thrown, the rest of the payload changes nothing. */
  lemma {:induction false} MergeStaysAborted<V>(memory: map<string, seq<V>>, payload: seq<(string, V)>, i: nat)
    requires i <= |payload| && !Merged(memory, payload[..i]).completed
    ensures Merged(memory, payload) == Merged(memory, payload[..i])
    decreases |payload| - i
  {
    if i < |payload| {
      var next := payload[..i + 1];
      assert next[..i] == payload[..i];
      assert !Merged(memory, next).completed;
      MergeStaysAborted(memory, payload, i + 1);
    } else {
      assert payload[..i] == payload;
    }
  }

  /** The merge only appends: every array's old contents are a prefix, in
      order, of its new contents. */
  lemma {:induction false} MergeOnlyAppends<V>(memory: map<string, seq<V>>, payload: seq<(string, V)>)
    ensures forall k :: k in memory ==> memory[k] <= Merged(memory, payload).memory[k]
    decreases |payload|
  {
    if payload != [] {
      MergeOnlyAppends(memory, payload[..|payload| - 1]);
    }
  }

  /** An array that held no value twice still holds none twice: a value
      already present is never pushed again. */
  lemma {:induction false} MergeKeepsNoDuplicates<V>(memory: map<string, seq<V>>, payload: seq<(string, V)>)
    requires forall k :: k in memory ==> NoDuplicates(memory[k])
    ensures forall k :: k in Merged(memory, payload).memory ==> NoDuplicates(Merged(memory, payload).memory[k])
    decreases |payload|
  {
    if payload != [] {
      MergeKeepsNoDuplicates(memory, payload[..|payload| - 1]);
    }
  }

  /** updated names each key at most once, and names exactly the keys whose
      arrays grew. */
  lemma {:induction false} MergeUpdatedExactly<V>(memory: map<string, seq<V>>, payload: seq<(string, V)>)
    ensures NoDuplicates(Merged(memory, payload).updated)
    ensures forall k :: k in Merged(memory, payload).updated <==>
      k in memory && |Merged(memory, payload).memory[k]| > |memory[k]|
    decreases |payload|
  {
    MergeOnlyAppends(memory, payload);
    if payload != [] {
      var prefix := payload[..|payload| - 1];
      MergeUpdatedExactly(memory, prefix);
      MergeOnlyAppends(memory, prefix);
    }
  }

  /** Every value the merge appends to an array came with that key in the payload. */
  lemma {:induction false} MergeAppendsPayloadValues<V>(memory: map<string, seq<V>>, payload: seq<(string, V)>)
    ensures forall k, j :: k in memory && |memory[k]| <= j < |Merged(memory, payload).memory[k]| ==>
      (k, Merged(memory, payload).memory[k][j]) in payload
    decreases |payload|
  {
    MergeOnlyAppends(memory, payload);
    if payload != [] {
      var prefix := payload[..|payload| - 1];
      MergeAppendsPayloadValues(memory, prefix);
      MergeOnlyAppends(memory, prefix);
      forall k, j | k in memory && |memory[k]| <= j < |Merged(memory, payload).memory[k]|
        ensures (k, Merged(memory, payload).memory[k][j]) in payload
      {
        var before := Merged(memory, prefix).memory;
        if j < |before[k]| {
          assert before[k][j] == Merged(memory, payload).memory[k][j];
          assert (k, before[k][j]) in prefix;
        } else {
          assert payload[|payload| - 1] == (k, Merged(memory, payload).memory[k][j]);
        }
      }
    }
  }

  /** The loop runs to the end exactly when every payload key has an array. */
  lemma {:induction false} MergeCompletes<V>(memory: map<string, seq<V>>, payload: seq<(string, V)>)
    ensures Merged(memory, payload).completed <==> forall i :: 0 <= i < |payload| ==> payload[i].0 in memory
    decreases |payload|
  {
    if payload != [] {
      var prefix := payload[..|payload| - 1];
      MergeCompletes(memory, prefix);
      if !Merged(memory, prefix).completed {
        var i :| 0 <= i < |prefix| && prefix[i].0 !in memory;
        assert payload[i] == prefix[i];
      } else {
        assert forall i :: 0 <= i < |prefix| ==> prefix[i] == payload[i];
      }
    }
  }

  /** When every payload key has an array, the merge runs to the end and
      leaves every payload value in its key's array. */
  lemma {:induction false} MergeContainsPayload<V>(memory: map<string, seq<V>>, payload: seq<(string, V)>)
    requires forall i :: 0 <= i < |payload| ==> payload[i].0 in memory
    ensures Merged(memory, payload).completed
    ensures forall i :: 0 <= i < |payload| ==> payload[i].1 in Merged(memory, payload).memory[payload[i].0]
    decreases |payload|
  {
    MergeCompletes(memory, payload);
    if payload != [] {
      var prefix := payload[..|payload| - 1];
      assert forall i :: 0 <= i < |prefix| ==> prefix[i] == payload[i];
      MergeContainsPayload(memory, prefix);
      MergeOnlyAppends(memory, payload);
      var r := Merged(memory, prefix);
      forall i | 0 <= i < |payload|
        ensures payload[i].1 in Merged(memory, payload).memory[payload[i].0]
      {
        if i < |prefix| {
          var k := payload[i].0;
          assert payload[i].1 in r.memory[k];
          assert r.memory[k] <= Merged(memory, payload).memory[k] by {
            MergeStepAppends(r, payload[|payload| - 1].0, payload[|payload| - 1].1, k);
          }
        }
      }
    }
  }

  lemma MergeStepAppends<V>(r: MergeState<V>, v: string, x: V, k: string)
    requires k in r.memory
    ensures k in MergeStep(r, v, x).memory && r.memory[k] <= MergeStep(r, v, x).memory[k]
  {
  }

  /** Local storage after the write-back loop over keys. */
  function WrittenBack<V>(storage: map<string, seq<V>>, memory: map<string, seq<V>>, keys: seq<string>): map<string, seq<V>>
    requires forall k :: k in keys ==> k in memory
    decreases |keys|
  {
    if keys == [] then storage
    else
      var last := keys[|keys| - 1];
      WrittenBack(storage, memory, keys[..|keys| - 1])[last := memory[last]]
  }

  /** The write-back stores the current array for every key in keys and
      leaves every other key of storage as it was. */
  lemma {:induction false} WrittenBackExactly<V>(storage: map<string, seq<V>>, memory: map<string, seq<V>>, keys: seq<string>)
    requires forall k :: k in keys ==> k in memory
    ensures forall k :: k in WrittenBack(storage, memory, keys) <==> k in storage || k in keys
    ensures forall k :: k in keys ==> WrittenBack(storage, memory, keys)[k] == memory[k]
    ensures forall k :: k in storage && k !in keys ==> WrittenBack(storage, memory, keys)[k] == storage[k]
    decreases |keys|
  {
    if keys != [] {
      var prefix := keys[..|keys| - 1];
      WrittenBackExactly(storage, memory, prefix);
      assert forall k :: k in keys <==> k in prefix || k == keys[|keys| - 1];
    }
  }

  /** The handler's state: memoryArray, localStorage and the messages sent to the watch. */
  class Script<V(==)> {
    var memory: map<string, seq<V>>
    var storage: map<string, seq<V>>
    var sent: seq<map<string, string>>

    constructor (memory: map<string, seq<V>>, storage: map<string, seq<V>>)
      ensures this.memory == memory && this.storage == storage && sent == []
    {
      this.memory, this.storage, sent := memory, storage, [];
    }

    /** The appmessage handler. completed is false when it threw part-way
        through the merge loop; nothing is then written to storage. */
    method AppMessage(payload: seq<(string, V)>) returns (completed: bool)
      modifies this
      ensures memory == Merged(old(memory), payload).memory
      ensures completed == Merged(old(memory), payload).completed
      ensures storage == if completed then WrittenBack(old(storage), memory, Merged(old(memory), payload).updated)
                         else old(storage)
      ensures sent == old(sent)
    {
      ghost var initial := memory;
      var updated: seq<string> := [];
      var i := 0;
      while i < |payload|
        invariant 0 <= i <= |payload|
        invariant Merged(initial, payload[..i]) == MergeState(memory, updated, true)
        invariant storage == old(storage) && sent == old(sent)
      {
        var v, x := payload[i].0, payload[i].1;
        ghost var before := MergeState(memory, updated, true);
        assert payload[..i + 1][..i] == payload[..i];
        assert Merged(initial, payload[..i + 1]) == MergeStep(before, v, x);
        if v !in memory {
          MergeStaysAborted(initial, payload, i + 1);
          return false;
        }
        if x !in memory[v] {
          if v !in updated {
            updated := updated + [v];
          }
          memory := memory[v := memory[v] + [x]];
        }
        i := i + 1;
      }
      assert payload[..i] == payload;
      completed := true;
      WriteBack(updated);
    }

    /** The write-back loop of the appmessage handler: stores the current
        array of every key in keys. */
    method WriteBack(keys: seq<string>)
      requires forall k :: k in keys ==> k in memory
      modifies this
      ensures memory == old(memory) && sent == old(sent)
      ensures storage == WrittenBack(old(storage), memory, keys)
    {
      var j := 0;
      while j < |keys|
        invariant 0 <= j <= |keys|
        invariant memory == old(memory) && sent == old(sent)
        invariant storage == WrittenBack(old(storage), memory, keys[..j])
      {
        assert keys[..j + 1][..j] == keys[..j];
        storage := storage[keys[j] := memory[keys[j]]];
        j := j + 1;
      }
      assert keys[..j] == keys;
    }

    /** The webviewclosed handler: on "reset", clear storage and send the
        reset message; memoryArray is not cleared. Any other response
        changes nothing. */
    method WebviewClosed(response: string)
      modifies this
      ensures memory == old(memory)
      ensures response == "reset" ==> storage == map[] && sent == old(sent) + [map["0" := "reset"]]
      ensures response != "reset" ==> storage == old(storage) && sent == old(sent)
    {
      if response == "reset" {
        storage := map[];
        sent := sent + [map["0" := "reset"]];
      }
    }
  }
}
