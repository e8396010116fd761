/**
 * `make_list_vals_unique` (tracetools/lists.py): walk the names in order and
 * append each one, or, when it is already in the output, the name with "_"
 * and a counter that is shared by all names and starts at 1.
 */
module Lists {
  import opened Strings

  /** What the function appends for name, given the output so far and the counter. */
  function Appended(name: string, outputSoFar: seq<string>, count: int): string
  {
    if name in outputSoFar then name + "_" + IntToString(count) else name
  }

  /** How many of the names were already present in the output when they were appended. */
  function Collisions(input: seq<string>, output: seq<string>): nat
    requires |input| == |output|
  {
    if input == [] then 0
    else
      var n := |input| - 1;
      Collisions(input[..n], output[..n]) + (if input[n] in output[..n] then 1 else 0)
  }

  /**
   * output is what the loop produces from input: built one name at a time,
   * each entry the name itself or the name with the counter (1 + collisions so far).
   */
  predicate Uniquified(input: seq<string>, output: seq<string>)
  {
    && |output| == |input|
    && (input != [] ==>
         var n := |input| - 1;
         && Uniquified(input[..n], output[..n])
         && output[n] == Appended(input[n], output[..n], 1 + Collisions(input[..n], output[..n])))
  }

  /** Uniquified grows one name at a time. */
  lemma UniquifiedSnoc(input: seq<string>, output: seq<string>, name: string, appended: string)
    requires Uniquified(input, output)
    requires appended == Appended(name, output, 1 + Collisions(input, output))
    ensures Uniquified(input + [name], output + [appended])
    ensures Collisions(input + [name], output + [appended])
         == Collisions(input, output) + (if name in output then 1 else 0)
  {
    var inp, out := input + [name], output + [appended];
    assert inp[..|input|] == input && out[..|output|] == output;
  }

  /** The source's loop, with the counter kept equal to 1 + the number of collisions so far. */
  method MakeListValsUnique(inputList: seq<string>) returns (outputList: seq<string>)
    ensures Uniquified(inputList, outputList)
  {
    outputList := [];
    var count := 1;
    for i := 0 to |inputList|
      invariant Uniquified(inputList[..i], outputList)
      invariant count == 1 + Collisions(inputList[..i], outputList)
    {
      var name := inputList[i];
      assert inputList[..i + 1] == inputList[..i] + [name];
      if name !in outputList {
        UniquifiedSnoc(inputList[..i], outputList, name, name);
        outputList := outputList + [name];
      } else {
        var renamed := name + "_" + IntToString(count);
        UniquifiedSnoc(inputList[..i], outputList, name, renamed);
        outputList := outputList + [renamed];
        count := count + 1;
      }
    }
    assert inputList[..|inputList|] == inputList;
  }

  /** Every prefix of a uniquified pair is one. */
  lemma {:induction false} UniquifiedPrefix(input: seq<string>, output: seq<string>, n: nat)
    requires Uniquified(input, output) && n <= |input|
    ensures Uniquified(input[..n], output[..n])
    decreases |input|
  {
    if n < |input| {
      var m := |input| - 1;
      UniquifiedPrefix(input[..m], output[..m], n);
      assert input[..m][..n] == input[..n] && output[..m][..n] == output[..n];
    } else {
      assert input[..n] == input && output[..n] == output;
    }
  }

  /** A name not yet in the output is kept; a renamed entry is the name followed by "_" and the counter. */
  lemma UniquifiedEntries(input: seq<string>, output: seq<string>, i: int)
    requires Uniquified(input, output) && 0 <= i < |input|
    ensures output[i] == Appended(input[i], output[..i], 1 + Collisions(input[..i], output[..i]))
    ensures output[i] != input[i] <==> input[i] in output[..i]
  {
    UniquifiedPrefix(input, output, i + 1);
    var inp, out := input[..i + 1], output[..i + 1];
    assert inp[..i] == input[..i] && out[..i] == output[..i];
    assert inp[i] == input[i] && out[i] == output[i];
    assert Uniquified(inp, out);
    assert out[i] == Appended(inp[i], out[..i], 1 + Collisions(inp[..i], out[..i]));
    if input[i] in output[..i] {
      assert |output[i]| > |input[i]|;
    }
  }

  /** Positions whose entry was renamed. */
  function Renamed(input: seq<string>, output: seq<string>): nat
    requires |input| == |output|
  {
    if input == [] then 0
    else
      var n := |input| - 1;
      Renamed(input[..n], output[..n]) + (if output[n] != input[n] then 1 else 0)
  }

  /** The counter ends at 1 + the number of entries that were renamed. */
  lemma {:induction false} CollisionsAreRenames(input: seq<string>, output: seq<string>)
    requires Uniquified(input, output)
    ensures Collisions(input, output) == Renamed(input, output)
  {
    if input != [] {
      var n := |input| - 1;
      UniquifiedPrefix(input, output, n);
      CollisionsAreRenames(input[..n], output[..n]);
      UniquifiedEntries(input, output, n);
    }
  }

  /** The output need not be unique: a generated "a_1" can repeat a name already given. */
  lemma NotUniqueExample(output: seq<string>)
    requires Uniquified(["a_1", "a", "a"], output)
    ensures output == ["a_1", "a", "a_1"]
    ensures !Distinct(output)
  {
    var input := ["a_1", "a", "a"];
    UniquifiedEntries(input, output, 0);
    assert output[0] == "a_1";
    UniquifiedEntries(input, output, 1);
    assert output[..1] == ["a_1"];
    assert output[1] == "a";
    UniquifiedEntries(input, output, 2);
    assert output[..2] == ["a_1", "a"];
    assert Collisions(input[..2], output[..2]) == 0 by {
      assert input[..2][..1] == input[..1] && output[..2][..1] == output[..1];
      assert input[..1][..0] == [] && output[..1][..0] == [];
    }
    assert IntToString(1) == "1";
    assert output[2] == "a_1";
  }

  /** Nor is the first occurrence of every name kept: "a_1" here meets the generated "a_1". */
  lemma FirstOccurrenceRenamedExample(output: seq<string>)
    requires Uniquified(["a", "a", "a_1"], output)
    ensures output == ["a", "a_1", "a_1_2"]
  {
    var input := ["a", "a", "a_1"];
    UniquifiedEntries(input, output, 0);
    assert output[0] == "a";
    UniquifiedEntries(input, output, 1);
    assert output[..1] == ["a"];
    assert Collisions(input[..1], output[..1]) == 0 by {
      assert input[..1][..0] == [] && output[..1][..0] == [];
    }
    assert IntToString(1) == "1";
    assert output[1] == "a_1";
    UniquifiedEntries(input, output, 2);
    assert output[..2] == ["a", "a_1"];
    assert Collisions(input[..2], output[..2]) == 1 by {
      assert input[..2][..1] == input[..1] && output[..2][..1] == output[..1];
      assert input[..1][..0] == [] && output[..1][..0] == [];
    }
    assert IntToString(2) == "2";
    assert output[2] == "a_1_2";
  }

  /** output[i] is the name input[i] itself or the name followed by "_" and more. */
  predicate Derived(name: string, entry: string)
  {
    entry == name || (|entry| > |name| + 1 && entry[..|name|] == name && entry[|name|] == '_')
  }

  /** What the corrected loop keeps true: no repeats, free names kept, every entry derived from its name. */
  predicate FixedOutput(input: seq<string>, output: seq<string>)
  {
    && |output| == |input|
    && Distinct(output)
    && (forall i :: 0 <= i < |input| && input[i] !in output[..i] ==> output[i] == input[i])
    && (forall i :: 0 <= i < |input| ==> Derived(input[i], output[i]))
  }

  lemma FixedOutputSnoc(input: seq<string>, output: seq<string>, name: string, next: string)
    requires FixedOutput(input, output)
    requires next !in output && Derived(name, next) && (name !in output ==> next == name)
    ensures FixedOutput(input + [name], output + [next])
  {
    var inp, out := input + [name], output + [next];
    forall k | 0 <= k < |inp| && inp[k] !in out[..k] ensures out[k] == inp[k] {
      if k < |input| {
        assert out[..k] == output[..k];
      } else {
        assert out[..k] == output;
      }
    }
  }

  /**
   * The evidently intended behaviour: a colliding name takes the first counter
   * value whose "name_count" is not taken yet, so the output has no repeats.
   */
  method MakeListValsUniqueFixed(inputList: seq<string>) returns (outputList: seq<string>)
    ensures |outputList| == |inputList|
    ensures Distinct(outputList)
    ensures forall i :: 0 <= i < |inputList| && inputList[i] !in outputList[..i] ==> outputList[i] == inputList[i]
    ensures forall i :: 0 <= i < |inputList| ==> Derived(inputList[i], outputList[i])
  {
    outputList := [];
    var count := 1;
    for i := 0 to |inputList|
      invariant count >= 1
      invariant FixedOutput(inputList[..i], outputList)
    {
      var name := inputList[i];
      var next := name;
      if name in outputList {
        ghost var taken := set s | s in outputList;
        while name + "_" + IntToString(count) in outputList
          invariant count >= 1
          decreases Pow10Nat(MaxLen(taken)) - count
        {
          TakenCandidateIsShort(taken, name + "_", count);
          count := count + 1;
        }
        next := name + "_" + IntToString(count);
        assert next[..|name|] == name && next[|name|] == '_';
        count := count + 1;
      }
      FixedOutputSnoc(inputList[..i], outputList, name, next);
      assert inputList[..i + 1] == inputList[..i] + [name];
      outputList := outputList + [next];
    }
    assert inputList[..|inputList|] == inputList;
  }
}
