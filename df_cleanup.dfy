/**
 * Renaming of repeated column names (fpbiolib/df_cleanup.py): `fix_dups`,
 * its inner `update_val`, and `rename_dup_cols_in_two_dfs`. Column names are
 * strings; a DataFrame's column array is an `array<string>`.
 */
module DfCleanup {
  import opened Strings

  /** The dictionary entry `[occurrences, suffix]` kept per distinct value. */
  datatype Entry = Entry(occurrences: nat, suffix: int)

  type Dups = map<string, Entry>

  /** `update_val`: the first `val + sep + str(m)`, m >= num, that is not an original value. */
  function UpdateVal(keys: set<string>, sep: string, val: string, num: int): (r: (string, int))
    ensures r.1 >= num
    ensures r.0 == val + sep + IntToString(r.1)
    ensures r.0 !in keys
    ensures forall m :: num <= m < r.1 ==> val + sep + IntToString(m) in keys
    decreases Pow10Nat(MaxLen(keys)) - num
  {
    var tempVal := val + sep + IntToString(num);
    if tempVal !in keys then (tempVal, num)
    else
      TakenCandidateIsShort(keys, val + sep, num);
      var r := UpdateVal(keys, sep, val, num + 1);
      assert forall m :: num <= m < r.1 ==> val + sep + IntToString(m) in keys by {
        forall m | num <= m < r.1 ensures val + sep + IntToString(m) in keys {
          if m == num {
            assert val + sep + IntToString(m) == tempVal;
          }
        }
      }
      r
  }

  /** The first loop of `fix_dups`: one entry per distinct value, counting its occurrences. */
  function Tally(s: seq<string>, start: int): (d: Dups)
    ensures forall v :: v in d <==> v in s
    ensures forall v :: v in d ==> d[v].occurrences == multiset(s)[v] && d[v].suffix == start - 1
  {
    if s == [] then map[]
    else
      var n := |s| - 1;
      var d := Tally(s[..n], start);
      assert s == s[..n] + [s[n]];
      if s[n] !in d then d[s[n] := Entry(1, start - 1)]
      else d[s[n] := Entry(d[s[n]].occurrences + 1, d[s[n]].suffix)]
  }

  /** The state of the second loop: the names written so far, the suffix used at each, the dictionary. */
  datatype Pass = Pass(out: seq<string>, sufs: seq<int>, dups: Dups)

  /** One iteration of the second loop, for the value val at the next position. */
  function Step(p: Pass, val: string, keys: set<string>, sep: string, start: int, updateFirst: bool): Pass
    requires val in p.dups
  {
    var e := p.dups[val];
    if e.occurrences > 1 then
      var suf := e.suffix + 1;
      if updateFirst || suf > start then
        var r := UpdateVal(keys, sep, val, suf);
        Pass(p.out + [r.0], p.sufs + [r.1], p.dups[val := Entry(e.occurrences, r.1)])
      else
        Pass(p.out + [val], p.sufs + [suf], p.dups[val := Entry(e.occurrences, suf)])
    else
      Pass(p.out + [val], p.sufs + [e.suffix], p.dups)
  }

  /** The second loop of `fix_dups` run over the positions of s, from the dictionary d0. */
  function Relabel(s: seq<string>, d0: Dups, sep: string, start: int, updateFirst: bool): (p: Pass)
    requires forall i :: 0 <= i < |s| ==> s[i] in d0
    ensures |p.out| == |s| && |p.sufs| == |s|
    ensures p.dups.Keys == d0.Keys
    ensures forall v :: v in d0 ==> p.dups[v].occurrences == d0[v].occurrences
  {
    if s == [] then Pass([], [], d0)
    else
      var n := |s| - 1;
      Step(Relabel(s[..n], d0, sep, start, updateFirst), s[n], d0.Keys, sep, start, updateFirst)
  }

  /** What `fix_dups(mylist, sep, start, update_first)` leaves in the list. */
  function FixDupsSpec(s: seq<string>, sep: string, start: int, updateFirst: bool): seq<string>
  {
    Relabel(s, Tally(s, start), sep, start, updateFirst).out
  }

  /** The suffix bookkeeping of the second loop, position by position. */
  predicate SuffixFacts(s: seq<string>, d0: Dups, start: int, p: Pass)
    requires |p.sufs| == |s|
    requires p.dups.Keys == d0.Keys
    requires forall i :: 0 <= i < |s| ==> s[i] in d0
  {
    SuffixBounds(s, d0, start, p) && SuffixOrder(s, d0, p)
  }

  /** Every suffix stays at or above start - 1; a repeated value's suffixes are at least start and at most its entry. */
  predicate SuffixBounds(s: seq<string>, d0: Dups, start: int, p: Pass)
    requires |p.sufs| == |s|
    requires p.dups.Keys == d0.Keys
    requires forall i :: 0 <= i < |s| ==> s[i] in d0
  {
    && (forall v :: v in p.dups ==> p.dups[v].suffix >= start - 1)
    && (forall v :: v in d0 && v !in s ==> p.dups[v].suffix == start - 1)
    && (forall i :: 0 <= i < |s| && d0[s[i]].occurrences > 1 ==> start <= p.sufs[i] <= p.dups[s[i]].suffix)
  }

  /** The suffixes used for one repeated value strictly increase along the list. */
  predicate SuffixOrder(s: seq<string>, d0: Dups, p: Pass)
    requires |p.sufs| == |s|
    requires forall i :: 0 <= i < |s| ==> s[i] in d0
  {
    forall i, j :: 0 <= i < j < |s| && s[i] == s[j] && d0[s[i]].occurrences > 1 ==> p.sufs[i] < p.sufs[j]
  }

  /** The names written by the second loop, position by position. */
  predicate NameFacts(s: seq<string>, d0: Dups, sep: string, start: int, updateFirst: bool, p: Pass)
    requires |p.out| == |s| && |p.sufs| == |s|
    requires forall i :: 0 <= i < |s| ==> s[i] in d0
  {
    && (forall i :: 0 <= i < |s| && d0[s[i]].occurrences <= 1 ==> p.out[i] == s[i])
    && (forall i :: 0 <= i < |s| && d0[s[i]].occurrences > 1 && !updateFirst && p.sufs[i] <= start ==> p.out[i] == s[i])
    && (forall i :: 0 <= i < |s| && d0[s[i]].occurrences > 1 && (updateFirst || p.sufs[i] > start) ==>
          p.out[i] == s[i] + sep + IntToString(p.sufs[i]) && p.out[i] !in d0)
  }

  /** The second loop keeps both sets of facts, when every entry starts with suffix start - 1. */
  lemma {:induction false} RelabelInvariant(s: seq<string>, d0: Dups, sep: string, start: int, updateFirst: bool)
    requires forall i :: 0 <= i < |s| ==> s[i] in d0
    requires forall v :: v in d0 ==> d0[v].suffix == start - 1
    ensures SuffixFacts(s, d0, start, Relabel(s, d0, sep, start, updateFirst))
    ensures NameFacts(s, d0, sep, start, updateFirst, Relabel(s, d0, sep, start, updateFirst))
  {
    if s != [] {
      var n := |s| - 1;
      var s' := s[..n];
      assert s == s' + [s[n]];
      RelabelInvariant(s', d0, sep, start, updateFirst);
      var q := Relabel(s', d0, sep, start, updateFirst);
      StepSuffix(s', d0, sep, start, updateFirst, q, s[n]);
      StepNames(s', d0, sep, start, updateFirst, q, s[n]);
    }
  }

  /** What one step does to the suffixes: only val's entry moves, and it moves above its old value. */
  lemma StepShape(q: Pass, v: string, keys: set<string>, sep: string, start: int, updateFirst: bool)
    requires v in q.dups
    ensures var p := Step(q, v, keys, sep, start, updateFirst);
      && p.sufs[..|q.sufs|] == q.sufs && |p.sufs| == |q.sufs| + 1
      && p.out[..|q.out|] == q.out && |p.out| == |q.out| + 1
      && p.dups.Keys == q.dups.Keys
      && (forall w :: w in q.dups && w != v ==> p.dups[w] == q.dups[w])
      && p.dups[v].occurrences == q.dups[v].occurrences
      && (q.dups[v].occurrences > 1 ==> p.sufs[|q.sufs|] >= q.dups[v].suffix + 1 && p.dups[v].suffix == p.sufs[|q.sufs|])
      && (q.dups[v].occurrences <= 1 ==> p.dups[v] == q.dups[v])
  {
  }

  /** One step keeps the suffix bookkeeping. */
  lemma StepSuffix(s': seq<string>, d0: Dups, sep: string, start: int, updateFirst: bool, q: Pass, v: string)
    requires |q.out| == |s'| && |q.sufs| == |s'|
    requires forall i :: 0 <= i < |s'| ==> s'[i] in d0
    requires q.dups.Keys == d0.Keys && v in d0
    requires forall w :: w in d0 ==> q.dups[w].occurrences == d0[w].occurrences
    requires SuffixFacts(s', d0, start, q)
    ensures var p := Step(q, v, d0.Keys, sep, start, updateFirst);
      |p.sufs| == |s' + [v]| && p.dups.Keys == d0.Keys && SuffixFacts(s' + [v], d0, start, p)
  {
    var p := Step(q, v, d0.Keys, sep, start, updateFirst);
    StepShape(q, v, d0.Keys, sep, start, updateFirst);
    var s := s' + [v];
    var n := |s'|;
    assert forall i :: 0 <= i < n ==> s[i] == s'[i] && p.sufs[i] == q.sufs[i] by {
      forall i | 0 <= i < n ensures s[i] == s'[i] && p.sufs[i] == q.sufs[i] {
        assert p.sufs[..n][i] == p.sufs[i];
      }
    }
    StepOrder(s', d0, sep, start, updateFirst, q, v);
    assert forall w :: w in s <==> w in s' || w == v;
    forall i | 0 <= i < |s| && d0[s[i]].occurrences > 1
      ensures start <= p.sufs[i] <= p.dups[s[i]].suffix
    {
      if i < n && s[i] == v {
        assert s'[i] == v;
      }
    }
  }

  /** One step keeps the suffixes of each repeated value increasing. */
  lemma StepOrder(s': seq<string>, d0: Dups, sep: string, start: int, updateFirst: bool, q: Pass, v: string)
    requires |q.out| == |s'| && |q.sufs| == |s'|
    requires forall i :: 0 <= i < |s'| ==> s'[i] in d0
    requires q.dups.Keys == d0.Keys && v in d0
    requires forall w :: w in d0 ==> q.dups[w].occurrences == d0[w].occurrences
    requires SuffixFacts(s', d0, start, q)
    ensures var p := Step(q, v, d0.Keys, sep, start, updateFirst);
      |p.sufs| == |s' + [v]| && SuffixOrder(s' + [v], d0, p)
  {
    var p := Step(q, v, d0.Keys, sep, start, updateFirst);
    StepShape(q, v, d0.Keys, sep, start, updateFirst);
    var s := s' + [v];
    var n := |s'|;
    assert forall i :: 0 <= i < n ==> s[i] == s'[i] && p.sufs[i] == q.sufs[i] by {
      forall i | 0 <= i < n ensures s[i] == s'[i] && p.sufs[i] == q.sufs[i] {
        assert p.sufs[..n][i] == p.sufs[i];
      }
    }
    forall i, j | 0 <= i < j < |s| && s[i] == s[j] && d0[s[i]].occurrences > 1
      ensures p.sufs[i] < p.sufs[j]
    {
      if j == n {
        assert s'[i] == v;
      }
    }
  }

  /** One step keeps the facts about the names written. */
  lemma StepNames(s': seq<string>, d0: Dups, sep: string, start: int, updateFirst: bool, q: Pass, v: string)
    requires |q.out| == |s'| && |q.sufs| == |s'|
    requires forall i :: 0 <= i < |s'| ==> s'[i] in d0
    requires q.dups.Keys == d0.Keys && v in d0
    requires forall w :: w in d0 ==> q.dups[w].occurrences == d0[w].occurrences
    requires NameFacts(s', d0, sep, start, updateFirst, q)
    ensures var p := Step(q, v, d0.Keys, sep, start, updateFirst);
      |p.out| == |s' + [v]| && |p.sufs| == |s' + [v]| && NameFacts(s' + [v], d0, sep, start, updateFirst, p)
  {
    var p := Step(q, v, d0.Keys, sep, start, updateFirst);
    var s := s' + [v];
    var n := |s'|;
    assert forall i :: 0 <= i < n ==> s[i] == s'[i];
    assert forall i :: 0 <= i < n ==> p.out[i] == q.out[i] && p.sufs[i] == q.sufs[i];
  }

  /** Length is unchanged, and values that occur once are left alone. */
  lemma FixDupsKeepsSingles(s: seq<string>, sep: string, start: int, updateFirst: bool, i: int)
    requires 0 <= i < |s|
    ensures |FixDupsSpec(s, sep, start, updateFirst)| == |s|
    ensures multiset(s)[s[i]] == 1 ==> FixDupsSpec(s, sep, start, updateFirst)[i] == s[i]
  {
    var d0 := Tally(s, start);
    RelabelInvariant(s, d0, sep, start, updateFirst);
  }

  /** Two positions holding the same value make it occur at least twice. */
  lemma TwoOccurrences(s: seq<string>, k: int, i: int)
    requires 0 <= k < i < |s| && s[k] == s[i]
    ensures multiset(s)[s[i]] >= 2
  {
    assert s == s[..i] + s[i..];
    assert s[k] == s[..i][k];
    assert s[i] == s[i..][0];
    assert multiset(s) == multiset(s[..i]) + multiset(s[i..]);
  }

  /** With update_first false, the first occurrence of every value is left alone. */
  lemma FixDupsKeepsFirst(s: seq<string>, sep: string, start: int, i: int)
    requires 0 <= i < |s| && s[i] !in s[..i]
    ensures |FixDupsSpec(s, sep, start, false)| == |s|
    ensures FixDupsSpec(s, sep, start, false)[i] == s[i]
  {
    var d0 := Tally(s, start);
    RelabelInvariant(s, d0, sep, start, false);
    if d0[s[i]].occurrences > 1 {
      FirstSuffix(s, d0, sep, start, i);
    }
  }

  /** With update_first false, every later occurrence (s[i] equal to an earlier s[k]) becomes `val + sep + str(m)` with m > start. */
  lemma FixDupsRenamesLater(s: seq<string>, sep: string, start: int, k: int, i: int)
    requires 0 <= k < i < |s| && s[k] == s[i]
    ensures var p := Relabel(s, Tally(s, start), sep, start, false);
      p.sufs[i] > start && p.out[i] == s[i] + sep + IntToString(p.sufs[i])
  {
    var d0 := Tally(s, start);
    RelabelInvariant(s, d0, sep, start, false);
    TwoOccurrences(s, k, i);
  }

  /** At the first occurrence of a value with update_first false, the suffix used is start. */
  lemma FirstSuffix(s: seq<string>, d0: Dups, sep: string, start: int, i: int)
    requires 0 <= i < |s| && s[i] !in s[..i]
    requires forall k :: 0 <= k < |s| ==> s[k] in d0
    requires forall v :: v in d0 ==> d0[v].suffix == start - 1
    requires d0[s[i]].occurrences > 1
    ensures Relabel(s, d0, sep, start, false).sufs[i] == start
  {
    var q := Relabel(s[..i], d0, sep, start, false);
    RelabelInvariant(s[..i], d0, sep, start, false);
    assert q.dups[s[i]].suffix == start - 1;
    RelabelNext(s, i, d0, sep, start, false);
    assert Relabel(s[..i + 1], d0, sep, start, false).sufs[i] == start;
    RelabelPrefix(s, d0, sep, start, false, i + 1);
  }

  /** Relabelling a prefix agrees with relabelling the whole list on that prefix. */
  lemma {:induction false} RelabelPrefix(s: seq<string>, d0: Dups, sep: string, start: int, updateFirst: bool, m: nat)
    requires m <= |s|
    requires forall k :: 0 <= k < |s| ==> s[k] in d0
    ensures forall i :: 0 <= i < m ==>
      Relabel(s[..m], d0, sep, start, updateFirst).out[i] == Relabel(s, d0, sep, start, updateFirst).out[i]
      && Relabel(s[..m], d0, sep, start, updateFirst).sufs[i] == Relabel(s, d0, sep, start, updateFirst).sufs[i]
    decreases |s| - m
  {
    if m < |s| {
      RelabelPrefix(s, d0, sep, start, updateFirst, m + 1);
      RelabelNext(s, m, d0, sep, start, updateFirst);
      var q := Relabel(s[..m], d0, sep, start, updateFirst);
      var p := Relabel(s[..m + 1], d0, sep, start, updateFirst);
      StepShape(q, s[m], d0.Keys, sep, start, updateFirst);
      forall i | 0 <= i < m ensures p.out[i] == q.out[i] && p.sufs[i] == q.sufs[i] {
        assert p.out[..m][i] == p.out[i] && p.sufs[..m][i] == p.sufs[i];
      }
    } else {
      assert s[..m] == s;
    }
  }

  /** A renamed entry is never one of the values originally in the list. */
  lemma FixDupsRenamedAreNew(s: seq<string>, sep: string, start: int, updateFirst: bool, i: int)
    requires 0 <= i < |s|
    ensures var r := FixDupsSpec(s, sep, start, updateFirst);
      |r| == |s| && (r[i] != s[i] ==> r[i] !in s)
  {
    RelabelInvariant(s, Tally(s, start), sep, start, updateFirst);
  }

  /** Two renamed occurrences of the same value get different names: the suffix only grows. */
  lemma FixDupsSameValueDistinct(s: seq<string>, sep: string, start: int, updateFirst: bool, i: int, j: int)
    requires 0 <= i < j < |s| && s[i] == s[j]
    ensures var r := FixDupsSpec(s, sep, start, updateFirst);
      |r| == |s| && (r[i] != s[i] && r[j] != s[j] ==> r[i] != r[j])
  {
    var d0 := Tally(s, start);
    RelabelInvariant(s, d0, sep, start, updateFirst);
    var p := Relabel(s, d0, sep, start, updateFirst);
    if p.out[i] != s[i] && p.out[j] != s[j] && p.out[i] == p.out[j] {
      assert d0[s[i]].occurrences > 1;
      var prefix := s[i] + sep;
      assert prefix + IntToString(p.sufs[i]) == prefix + IntToString(p.sufs[j]);
      assert IntToString(p.sufs[i]) == IntToString(p.sufs[j]) by {
        assert (prefix + IntToString(p.sufs[i]))[|prefix|..] == IntToString(p.sufs[i]);
      }
      IntToStringInjective(p.sufs[i], p.sufs[j]);
    }
  }

  /** The renaming branch of one step. */
  lemma StepRenames(q: Pass, v: string, keys: set<string>, sep: string, start: int, updateFirst: bool)
    requires v in q.dups && q.dups[v].occurrences > 1
    requires updateFirst || q.dups[v].suffix + 1 > start
    ensures var e := q.dups[v];
      var r := UpdateVal(keys, sep, v, e.suffix + 1);
      Step(q, v, keys, sep, start, updateFirst) == Pass(q.out + [r.0], q.sufs + [r.1], q.dups[v := Entry(e.occurrences, r.1)])
  {
  }

  /** Relabelling one more position is one more step. */
  lemma RelabelNext(s: seq<string>, i: int, d0: Dups, sep: string, start: int, updateFirst: bool)
    requires forall k :: 0 <= k < |s| ==> s[k] in d0
    requires 0 <= i < |s|
    ensures Relabel(s[..i + 1], d0, sep, start, updateFirst)
         == Step(Relabel(s[..i], d0, sep, start, updateFirst), s[i], d0.Keys, sep, start, updateFirst)
  {
    assert s[..i + 1][..i] == s[..i];
  }

  /** A separator after which `str(m)` can be told apart: not empty, and its last character neither a digit nor '-'. */
  predicate SafeSep(sep: string)
  {
    |sep| > 0 && !('0' <= sep[|sep| - 1] <= '9') && sep[|sep| - 1] != '-'
  }

  /** Two ways of writing one string as x + a and y + b with a shorter than b agree on the character before a. */
  lemma SameEnding(x: string, y: string, a: string, b: string)
    requires x + a == y + b && |a| < |b| && |x| > 0
    ensures x[|x| - 1] == b[|b| - |a| - 1]
  {
    var t := x + a;
    assert t[|x| - 1] == x[|x| - 1];
    assert t[|y| + |b| - |a| - 1] == b[|b| - |a| - 1];
  }

  /** With a safe separator, `val + sep + str(m)` determines both val and m. */
  lemma SuffixedInjective(v1: string, v2: string, sep: string, m1: int, m2: int)
    requires SafeSep(sep)
    requires v1 + sep + IntToString(m1) == v2 + sep + IntToString(m2)
    ensures v1 == v2 && m1 == m2
  {
    var a, b := IntToString(m1), IntToString(m2);
    var x, y := v1 + sep, v2 + sep;
    assert x + a == y + b;
    IntToStringChars(m1);
    IntToStringChars(m2);
    assert x[|x| - 1] == sep[|sep| - 1] && y[|y| - 1] == sep[|sep| - 1];
    if |a| < |b| {
      SameEnding(x, y, a, b);
      assert false;
    } else if |b| < |a| {
      SameEnding(y, x, b, a);
      assert false;
    }
    var t := x + a;
    assert a == t[|x|..] && b == t[|y|..];
    IntToStringInjective(m1, m2);
    assert x == t[..|x|] == y;
    assert v1 == x[..|v1|] && v2 == y[..|v2|];
  }

  /** With a safe separator, different values or different numbers give different names. */
  lemma SuffixedDistinct(v1: string, v2: string, sep: string, m1: int, m2: int)
    requires SafeSep(sep) && (v1 != v2 || m1 != m2)
    ensures v1 + sep + IntToString(m1) != v2 + sep + IntToString(m2)
  {
    if v1 + sep + IntToString(m1) == v2 + sep + IntToString(m2) {
      SuffixedInjective(v1, v2, sep, m1, m2);
    }
  }

  /** Any two positions of the output differ, when the separator is safe. */
  lemma FixDupsPair(s: seq<string>, sep: string, start: int, updateFirst: bool, i: int, j: int)
    requires SafeSep(sep) && 0 <= i < j < |s|
    ensures var p := Relabel(s, Tally(s, start), sep, start, updateFirst);
      |p.out| == |s| && p.out[i] != p.out[j]
  {
    var d0 := Tally(s, start);
    RelabelInvariant(s, d0, sep, start, updateFirst);
    var p := Relabel(s, d0, sep, start, updateFirst);
    var renamedI := d0[s[i]].occurrences > 1 && (updateFirst || p.sufs[i] > start);
    var renamedJ := d0[s[j]].occurrences > 1 && (updateFirst || p.sufs[j] > start);
    if renamedI && renamedJ {
      if s[i] == s[j] {
        assert p.sufs[i] < p.sufs[j];
      }
      SuffixedDistinct(s[i], s[j], sep, p.sufs[i], p.sufs[j]);
    } else if !renamedI && !renamedJ {
      if s[i] == s[j] {
        TwoOccurrences(s, i, j);
      }
    }
  }

  /** With a safe separator, such as the "." that `rename_dup_cols_in_two_dfs` passes, no name repeats. */
  lemma FixDupsDistinct(s: seq<string>, sep: string, start: int, updateFirst: bool)
    requires SafeSep(sep)
    ensures Distinct(FixDupsSpec(s, sep, start, updateFirst))
  {
    var r := FixDupsSpec(s, sep, start, updateFirst);
    forall i, j | 0 <= i < j < |r| ensures r[i] != r[j] {
      FixDupsPair(s, sep, start, updateFirst, i, j);
    }
  }

  /** The first occurrence of a repeated value, with update_first, takes the first free `val + sep + str(m)`, m >= start. */
  lemma FirstOccurrenceRenamed(s: seq<string>, sep: string, start: int, i: int, j: int)
    requires 0 <= i < j < |s| && s[i] !in s[..i] && s[j] == s[i]
    ensures var r := FixDupsSpec(s, sep, start, true);
      |r| == |s| && r[i] == UpdateVal((set v | v in s), sep, s[i], start).0
  {
    var d0 := Tally(s, start);
    TwoOccurrences(s, i, j);
    assert d0.Keys == (set v | v in s);
    FirstStepRenames(s, d0, sep, start, i);
    RelabelPrefix(s, d0, sep, start, true, i + 1);
  }

  /** At a first occurrence, with update_first, the value's entry is still the initial one and the step renames. */
  lemma FirstStepRenames(s: seq<string>, d0: Dups, sep: string, start: int, i: int)
    requires 0 <= i < |s| && s[i] !in s[..i]
    requires forall k :: 0 <= k < |s| ==> s[k] in d0
    requires d0[s[i]].occurrences > 1 && d0[s[i]].suffix == start - 1
    ensures Relabel(s[..i + 1], d0, sep, start, true).out[i] == UpdateVal(d0.Keys, sep, s[i], start).0
  {
    var q := Relabel(s[..i], d0, sep, start, true);
    UnseenEntry(s[..i], d0, sep, start, true, s[i]);
    RelabelNext(s, i, d0, sep, start, true);
    StepRenames(q, s[i], d0.Keys, sep, start, true);
  }

  /** The entry of a value not in the list is left as it was. */
  lemma {:induction false} UnseenEntry(s: seq<string>, d0: Dups, sep: string, start: int, updateFirst: bool, v: string)
    requires forall k :: 0 <= k < |s| ==> s[k] in d0
    requires v in d0 && v !in s
    ensures Relabel(s, d0, sep, start, updateFirst).dups[v] == d0[v]
  {
    if s != [] {
      var n := |s| - 1;
      assert s[n] != v;
      assert v !in s[..n];
      UnseenEntry(s[..n], d0, sep, start, updateFirst, v);
    }
  }

  /** A taken candidate moves `update_val` on to the next number. */
  lemma UpdateValSkips(keys: set<string>, sep: string, val: string, num: int)
    requires val + sep + IntToString(num) in keys
    ensures UpdateVal(keys, sep, val, num) == UpdateVal(keys, sep, val, num + 1)
  {
  }

  /** A free candidate is the answer of `update_val`. */
  lemma UpdateValFree(keys: set<string>, sep: string, val: string, num: int)
    requires val + sep + IntToString(num) !in keys
    ensures UpdateVal(keys, sep, val, num) == (val + sep + IntToString(num), num)
  {
  }

  /** A list on which the default separator "" lets two generated names meet. */
  const RepeatExample: seq<string> := ["a", "a", "a1", "a1", "a2", "a3", "a4", "a5", "a6", "a7", "a8", "a9", "a10"]

  /** "a" + str(m) is an original value of the example for 1 <= m <= 10. */
  lemma RepeatExampleTaken(m: int)
    requires 1 <= m <= 10
    ensures "a" + "" + IntToString(m) in (set v | v in RepeatExample)
  {
    if m == 1 {
      assert IntToString(1) == "1";
      assert "a" + "" + IntToString(1) == RepeatExample[2];
    } else if m == 2 {
      assert IntToString(2) == "2";
      assert "a" + "" + IntToString(2) == RepeatExample[4];
    } else if m == 3 {
      assert IntToString(3) == "3";
      assert "a" + "" + IntToString(3) == RepeatExample[5];
    } else if m == 4 {
      assert IntToString(4) == "4";
      assert "a" + "" + IntToString(4) == RepeatExample[6];
    } else if m == 5 {
      assert IntToString(5) == "5";
      assert "a" + "" + IntToString(5) == RepeatExample[7];
    } else if m == 6 {
      assert IntToString(6) == "6";
      assert "a" + "" + IntToString(6) == RepeatExample[8];
    } else if m == 7 {
      assert IntToString(7) == "7";
      assert "a" + "" + IntToString(7) == RepeatExample[9];
    } else if m == 8 {
      assert IntToString(8) == "8";
      assert "a" + "" + IntToString(8) == RepeatExample[10];
    } else if m == 9 {
      assert IntToString(9) == "9";
      assert "a" + "" + IntToString(9) == RepeatExample[11];
    } else if m == 10 {
      assert IntToString(10) == "10";
      assert "a" + "" + IntToString(10) == RepeatExample[12];
    }
  }

  /** Neither "a11" nor "a1" + "1" is an original value of the example. */
  lemma RepeatExampleFree()
    ensures "a" + "" + IntToString(11) !in (set v | v in RepeatExample)
    ensures "a1" + "" + IntToString(1) !in (set v | v in RepeatExample)
  {
    assert IntToString(11) == "11" && IntToString(1) == "1";
    assert "a" + "" + "11" == "a11" && "a1" + "" + "1" == "a11";
    forall i | 0 <= i < |RepeatExample| ensures RepeatExample[i] != "a11" {
      assert |RepeatExample[i]| == 1 || RepeatExample[i][1] != '1' || (|RepeatExample[i]| == 2 || RepeatExample[i][2] != '1');
    }
  }

  /** From any m in 1..11, `update_val` for "a" ends where it does from 11. */
  lemma {:induction false} RepeatExampleSkips(m: int)
    requires 1 <= m <= 11
    ensures UpdateVal((set v | v in RepeatExample), "", "a", m) == UpdateVal((set v | v in RepeatExample), "", "a", 11)
    decreases 11 - m
  {
    if m < 11 {
      RepeatExampleTaken(m);
      UpdateValSkips((set v | v in RepeatExample), "", "a", m);
      RepeatExampleSkips(m + 1);
    }
  }

  /** `update_val` for the first "a" climbs past the ten taken names to 11; for "a1" it stops at 1. */
  lemma RepeatExampleClimbs()
    ensures UpdateVal((set v | v in RepeatExample), "", "a", 1).0 == "a11"
    ensures UpdateVal((set v | v in RepeatExample), "", "a1", 1).0 == "a11"
  {
    var k := set v | v in RepeatExample;
    RepeatExampleSkips(1);
    RepeatExampleFree();
    UpdateValFree(k, "", "a", 11);
    UpdateValFree(k, "", "a1", 1);
    assert IntToString(11) == "11" && IntToString(1) == "1";
  }

  /** The first "a" and the first "a1" of the example are first occurrences of repeated values. */
  lemma RepeatExampleFirsts()
    ensures RepeatExample[0] == RepeatExample[1] == "a" && RepeatExample[2] == RepeatExample[3] == "a1"
    ensures RepeatExample[0] !in RepeatExample[..0] && RepeatExample[2] !in RepeatExample[..2]
  {
    assert RepeatExample[..2] == ["a", "a"];
  }

  /**
   * With the defaults (sep "", start 1, update_first true) the first "a" and the
   * first "a1" both become "a11": generated names are checked only against the originals.
   */
  lemma DefaultSepRepeats()
    ensures var r := FixDupsSpec(RepeatExample, "", 1, true);
      |r| == |RepeatExample| && r[0] == "a11" && r[2] == "a11" && !Distinct(r)
  {
    RepeatExampleFirsts();
    FirstOccurrenceRenamed(RepeatExample, "", 1, 0, 1);
    FirstOccurrenceRenamed(RepeatExample, "", 1, 2, 3);
    RepeatExampleClimbs();
  }

  /** Tally grows one value at a time. */
  lemma TallyNext(s: seq<string>, start: int, i: int)
    requires 0 <= i < |s|
    ensures var d := Tally(s[..i], start);
      Tally(s[..i + 1], start)
        == if s[i] !in d then d[s[i] := Entry(1, start - 1)]
           else d[s[i] := Entry(d[s[i]].occurrences + 1, d[s[i]].suffix)]
  {
    assert s[..i + 1][..i] == s[..i];
  }

  /** The first loop of `fix_dups`: count the occurrences of every value of the list. */
  method CountValues(mylist: array<string>, start: int) returns (dups: Dups)
    ensures dups == Tally(mylist[..], start)
  {
    dups := map[];
    for i := 0 to mylist.Length
      invariant dups == Tally(mylist[..i], start)
    {
      TallyNext(mylist[..], start, i);
      var val := mylist[i];
      if val !in dups {
        dups := dups[val := Entry(1, start - 1)];
      } else {
        dups := dups[val := Entry(dups[val].occurrences + 1, dups[val].suffix)];
      }
    }
    assert mylist[..mylist.Length] == mylist[..];
  }

  /**
   * `fix_dups` on the list in place: the first loop builds the dictionary, the
   * second rewrites the positions of repeated values. The list is returned as well.
   */
  method FixDups(mylist: array<string>, sep: string, start: int, updateFirst: bool) returns (result: array<string>)
    modifies mylist
    ensures result == mylist
    ensures mylist[..] == FixDupsSpec(old(mylist[..]), sep, start, updateFirst)
  {
    var dups := CountValues(mylist, start);
    RewriteRepeats(mylist, dups, sep, start, updateFirst);
    result := mylist;
  }

  /** The second loop of `fix_dups`, from the dictionary the first loop built. */
  method RewriteRepeats(mylist: array<string>, dups: Dups, sep: string, start: int, updateFirst: bool)
    requires forall k :: 0 <= k < mylist.Length ==> mylist[k] in dups
    modifies mylist
    ensures mylist[..] == Relabel(old(mylist[..]), dups, sep, start, updateFirst).out
  {
    ghost var s0 := mylist[..];
    var table := dups;
    ghost var g := Pass([], [], dups);
    for i := 0 to mylist.Length
      invariant |s0| == mylist.Length
      invariant forall k :: 0 <= k < |s0| ==> s0[k] in dups
      invariant g == Relabel(s0[..i], dups, sep, start, updateFirst)
      invariant mylist[..i] == g.out
      invariant mylist[i..] == s0[i..]
      invariant table == g.dups
    {
      RelabelNext(s0, i, dups, sep, start, updateFirst);
      assert mylist[i] == s0[i] by { assert mylist[i..][0] == s0[i..][0]; }
      assert mylist[i + 1..] == s0[i + 1..] by { assert mylist[i + 1..] == mylist[i..][1..]; }
      table := RewriteAt(mylist, i, table, dups.Keys, sep, start, updateFirst, g);
      g := Relabel(s0[..i + 1], dups, sep, start, updateFirst);
    }
    assert s0[..mylist.Length] == s0;
  }

  /** One iteration of the second loop: position i and the dictionary entry of its value. */
  method RewriteAt(mylist: array<string>, i: int, table: Dups, keys: set<string>, sep: string, start: int,
                   updateFirst: bool, ghost g: Pass) returns (table': Dups)
    requires 0 <= i < mylist.Length && mylist[i] in table
    requires mylist[..i] == g.out && g.dups == table
    modifies mylist
    ensures var p := Step(g, old(mylist[i]), keys, sep, start, updateFirst);
      mylist[..i + 1] == p.out && table' == p.dups
    ensures mylist[i + 1..] == old(mylist[i + 1..])
  {
    var val := mylist[i];
    var e := table[val];
    table' := table;
    if e.occurrences > 1 {
      var suf := e.suffix + 1;
      if updateFirst || suf > start {
        var r := UpdateVal(keys, sep, val, suf);
        table' := table[val := Entry(e.occurrences, r.1)];
        mylist[i] := r.0;
        assert mylist[..i + 1] == old(mylist[..i]) + [r.0];
      } else {
        table' := table[val := Entry(e.occurrences, suf)];
      }
    }
  }

  /** What the corrected second loop keeps true after writing the positions before i. */
  ghost predicate CheckedSoFar(s0: seq<string>, cur: seq<string>, i: int, d0: Dups, table: Dups, taken: set<string>)
  {
    && |cur| == |s0| && 0 <= i <= |s0|
    && (forall k :: 0 <= k < |s0| ==> s0[k] in d0)
    && table.Keys == d0.Keys && d0.Keys <= taken
    && (forall v :: v in d0 ==> table[v].occurrences == d0[v].occurrences && table[v].suffix >= d0[v].suffix)
    && (forall k :: 0 <= k < i && d0[s0[k]].occurrences > 1 ==> table[s0[k]].suffix > d0[s0[k]].suffix)
    && (forall k :: 0 <= k < i ==> cur[k] in taken)
    && (forall k :: 0 <= k < i ==> cur[k] == s0[k] || cur[k] !in d0)
    && (forall k :: 0 <= k < i && d0[s0[k]].occurrences <= 1 ==> cur[k] == s0[k])
    && (forall k :: i <= k < |s0| ==> cur[k] == s0[k])
    && (forall k, l :: 0 <= k < l < i ==> cur[k] != cur[l])
  }

  /**
   * The evidently intended `fix_dups`: `update_val` also refuses names it has
   * already generated, so no name of the result repeats, whatever the separator.
   */
  method FixDupsChecked(mylist: array<string>, sep: string, start: int, updateFirst: bool) returns (result: array<string>)
    modifies mylist
    ensures result == mylist
    ensures Distinct(mylist[..])
    ensures forall k :: 0 <= k < mylist.Length ==> mylist[k] == old(mylist[k]) || mylist[k] !in old(mylist[..])
    ensures forall k :: 0 <= k < mylist.Length && multiset(old(mylist[..]))[old(mylist[k])] == 1 ==> mylist[k] == old(mylist[k])
  {
    ghost var s0 := mylist[..];
    var table := CountValues(mylist, start);
    ghost var d0 := table;
    var taken := table.Keys;
    for i := 0 to mylist.Length
      invariant CheckedSoFar(s0, mylist[..], i, d0, table, taken)
      invariant forall v :: v in d0 ==> d0[v].suffix == start - 1 && d0[v].occurrences == multiset(s0)[v]
    {
      table, taken := CheckedAt(mylist, i, table, taken, sep, start, updateFirst, s0, d0);
    }
    result := mylist;
  }

  /** Writing a fresh name at position i, and advancing its value's entry, keeps the corrected loop's facts. */
  lemma CheckedNext(s0: seq<string>, cur: seq<string>, i: int, d0: Dups, table: Dups, taken: set<string>,
                    name: string, entry: Entry, taken': set<string>)
    requires CheckedSoFar(s0, cur, i, d0, table, taken) && i < |s0|
    requires entry.occurrences == table[s0[i]].occurrences && entry.suffix >= table[s0[i]].suffix
    requires d0[s0[i]].occurrences > 1 ==> entry.suffix > d0[s0[i]].suffix
    requires name == s0[i] || name !in d0
    requires d0[s0[i]].occurrences <= 1 ==> name == s0[i]
    requires name in taken' && taken <= taken'
    requires forall k :: 0 <= k < i ==> cur[k] != name
    ensures CheckedSoFar(s0, cur[i := name], i + 1, d0, table[s0[i] := entry], taken')
  {
  }

  /** One iteration of the corrected second loop. */
  method CheckedAt(mylist: array<string>, i: int, table: Dups, taken: set<string>, sep: string, start: int,
                   updateFirst: bool, ghost s0: seq<string>, ghost d0: Dups)
    returns (table': Dups, taken': set<string>)
    requires 0 <= i < mylist.Length
    requires CheckedSoFar(s0, mylist[..], i, d0, table, taken)
    requires forall v :: v in d0 ==> d0[v].suffix == start - 1 && d0[v].occurrences == multiset(s0)[v]
    modifies mylist
    ensures CheckedSoFar(s0, mylist[..], i + 1, d0, table', taken')
  {
    ghost var cur := mylist[..];
    var val := mylist[i];
    assert val == s0[i];
    var e := table[val];
    if e.occurrences > 1 {
      var suf := e.suffix + 1;
      if updateFirst || suf > start {
        var r := UpdateVal(taken, sep, val, suf);
        table' := table[val := Entry(e.occurrences, r.1)];
        taken' := taken + {r.0};
        CheckedNext(s0, cur, i, d0, table, taken, r.0, Entry(e.occurrences, r.1), taken');
        mylist[i] := r.0;
      } else {
        table' := table[val := Entry(e.occurrences, suf)];
        taken' := taken;
        forall k | 0 <= k < i ensures cur[k] != val {
          assert cur[k] == s0[k] || cur[k] !in d0;
        }
        CheckedNext(s0, cur, i, d0, table, taken, val, Entry(e.occurrences, suf), taken');
      }
    } else {
      table', taken' := table, taken;
      forall k | 0 <= k < i ensures cur[k] != val {
        if cur[k] == s0[k] && s0[k] == val {
          TwoOccurrences(s0, k, i);
        }
      }
      assert table == table[val := e];
      CheckedNext(s0, cur, i, d0, table, taken, val, e, taken');
    }
    assert mylist[..] == cur[i := mylist[i]];
  }

  /** `df1.columns.to_list() + df2.columns.to_list()`: a fresh list of both frames' names. */
  method Concat(df1: array<string>, df2: array<string>) returns (combined: array<string>)
    ensures fresh(combined)
    ensures combined[..] == df1[..] + df2[..]
  {
    combined := new string[df1.Length + df2.Length](k reads df1, df2 =>
      if 0 <= k < df1.Length then df1[k] else if 0 <= k - df1.Length < df2.Length then df2[k - df1.Length] else "");
    assert combined[..] == df1[..] + df2[..];
  }

  /** The assignment loop: dst[i] := src[i + offset] for every column i of dst. */
  method CopyColumns(dst: array<string>, src: array<string>, offset: nat)
    requires dst != src && offset + dst.Length <= src.Length
    modifies dst
    ensures dst[..] == src[offset..offset + dst.Length]
  {
    for i := 0 to dst.Length
      invariant forall k :: 0 <= k < i ==> dst[k] == src[k + offset]
    {
      dst[i] := src[i + offset];
    }
  }

  /**
   * `rename_dup_cols_in_two_dfs`: uniquify the two column lists together with
   * sep ".", start 0 and update_first false, then write the first part back into
   * df1 and the rest into df2. When df1 and df2 are the same frame the second
   * write wins.
   */
  method RenameDupCols(df1: array<string>, df2: array<string>) returns (r1: array<string>, r2: array<string>)
    modifies df1, df2
    ensures r1 == df1 && r2 == df2
    ensures var u := FixDupsSpec(old(df1[..]) + old(df2[..]), ".", 0, false);
      && (df1 != df2 ==> df1[..] + df2[..] == u)
      && (df1 == df2 ==> df1[..] == u[df1.Length..])
  {
    var combined := Concat(df1, df2);
    var uniquified := FixDups(combined, ".", 0, false);
    WriteBack(df1, df2, uniquified);
    r1, r2 := df1, df2;
  }

  /** The two assignment loops of `rename_dup_cols_in_two_dfs`. */
  method WriteBack(df1: array<string>, df2: array<string>, uniquified: array<string>)
    requires uniquified != df1 && uniquified != df2
    requires uniquified.Length == df1.Length + df2.Length
    modifies df1, df2
    ensures df1 != df2 ==> df1[..] + df2[..] == uniquified[..]
    ensures df1 == df2 ==> df1[..] == uniquified[df1.Length..]
  {
    ghost var u := uniquified[..];
    var df1Len := df1.Length;
    CopyColumns(df1, uniquified, 0);
    ghost var first := df1[..];
    CopyColumns(df2, uniquified, df1Len);
    if df1 != df2 {
      assert df1[..] == first == u[..df1Len];
      assert u == u[..df1Len] + u[df1Len..];
    }
  }

  /** The renamed columns of both frames together have no repeated name. */
  lemma RenameDupColsDistinct(c1: seq<string>, c2: seq<string>)
    ensures Distinct(FixDupsSpec(c1 + c2, ".", 0, false))
  {
    FixDupsDistinct(c1 + c2, ".", 0, false);
  }

  /** When df1's names are unique among themselves, df1 keeps them all. */
  lemma RenameDupColsKeepsFirst(c1: seq<string>, c2: seq<string>, i: int)
    requires Distinct(c1) && 0 <= i < |c1|
    ensures var u := FixDupsSpec(c1 + c2, ".", 0, false);
      |u| == |c1| + |c2| && u[i] == c1[i]
  {
    var c := c1 + c2;
    assert c[i] == c1[i] && c[..i] == c1[..i];
    FixDupsKeepsFirst(c, ".", 0, i);
  }

  /** A name of df2, unique in df2 and absent from df1, is kept. */
  lemma RenameDupColsKeepsNew(c1: seq<string>, c2: seq<string>, j: int)
    requires Distinct(c2) && 0 <= j < |c2| && c2[j] !in c1
    ensures var u := FixDupsSpec(c1 + c2, ".", 0, false);
      |u| == |c1| + |c2| && u[|c1| + j] == c2[j]
  {
    var c := c1 + c2;
    var i := |c1| + j;
    assert c[..i] == c1 + c2[..j];
    assert c[i] == c2[j];
    FixDupsKeepsFirst(c, ".", 0, i);
  }

  /** A name of df2 that is also a name of df1 becomes that name, ".", and a number of at least 1. */
  lemma RenameDupColsRenames(c1: seq<string>, c2: seq<string>, k: int, j: int)
    requires 0 <= k < |c1| && 0 <= j < |c2| && c2[j] == c1[k]
    ensures var p := Relabel(c1 + c2, Tally(c1 + c2, 0), ".", 0, false);
      p.sufs[|c1| + j] >= 1 && p.out[|c1| + j] == c2[j] + "." + IntToString(p.sufs[|c1| + j])
  {
    var c := c1 + c2;
    assert c[k] == c[|c1| + j];
    FixDupsRenamesLater(c, ".", 0, k, |c1| + j);
  }
}
