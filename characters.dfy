/**
 * Superscript conversion (fpbiolib/characters.py; fpbiolib/formatting.py holds
 * an identical `to_sup`). Both functions are Python's `str.translate`: a
 * character with an entry in the table is replaced by it, any other is kept.
 */
module Characters {
  import opened Strings

  /** `str.translate` with a table given as a map: mapped characters replaced, the rest kept. */
  function Translate(x: string, table: map<char, char>): (r: string)
    ensures |r| == |x|
    ensures forall i :: 0 <= i < |x| && x[i] in table ==> r[i] == table[x[i]]
    ensures forall i :: 0 <= i < |x| && x[i] !in table ==> r[i] == x[i]
  {
    if x == [] then []
    else [if x[0] in table then table[x[0]] else x[0]] + Translate(x[1..], table)
  }

  /** `str.maketrans(from, to)`: from[j] maps to to[j]; a repeated key keeps its last image. */
  function MakeTrans(from: string, to: string): map<char, char>
    requires |from| == |to|
  {
    if from == [] then map[]
    else MakeTrans(from[..|from| - 1], to[..|to| - 1])[from[|from| - 1] := to[|to| - 1]]
  }

  /** For a key string without repetitions, maketrans maps each key positionally and nothing else. */
  lemma {:induction false} MakeTransPositional(from: string, to: string)
    requires |from| == |to| && Distinct(from)
    ensures forall c :: c in MakeTrans(from, to) <==> c in from
    ensures forall j :: 0 <= j < |from| ==> MakeTrans(from, to)[from[j]] == to[j]
  {
    if from != [] {
      var n := |from| - 1;
      MakeTransPositional(from[..n], to[..n]);
      assert from == from[..n] + [from[n]];
      forall j | 0 <= j < n ensures from[..n][j] != from[n] {
      }
    }
  }

  /** Two strings without repetitions and with no common character concatenate to one. */
  lemma DistinctConcat(a: string, b: string)
    requires Distinct(a) && Distinct(b)
    requires forall i, j :: 0 <= i < |a| && 0 <= j < |b| ==> a[i] != b[j]
    ensures Distinct(a + b)
  {
    forall i, j | 0 <= i < j < |a + b| ensures (a + b)[i] != (a + b)[j] {
      if j < |a| {
      } else if i < |a| {
        assert (a + b)[j] == b[j - |a|];
      } else {
        assert (a + b)[i] == b[i - |a|];
      }
    }
  }

  const NormalUpper: string := "ABCDEFGHIJKLMNOPQRSTUVWXYZ"
  const NormalLower: string := "abcdefghijklmnopqrstuvwxyz"
  const NormalDigits: string := "0123456789"
  const NormalSigns: string := "+-=()"

  /** The 67 characters `get_super` converts, in table order. */
  const Normal: string := NormalUpper + NormalLower + NormalDigits + NormalSigns

  /** Their images, position by position (note 'Q' kept and U+06F9 for 'q'). */
  const Superscripts: string :=
    "\U{1D2C}\U{1D2E}\U{1D9C}\U{1D30}\U{1D31}\U{1DA0}\U{1D33}\U{1D34}\U{1D35}\U{1D36}\U{1D37}\U{1D38}\U{1D39}\U{1D3A}\U{1D3C}\U{1D3E}\U{0051}\U{1D3F}\U{02E2}\U{1D40}\U{1D41}\U{2C7D}\U{1D42}\U{02E3}\U{02B8}\U{1DBB}" +
    "\U{1D43}\U{1D47}\U{1D9C}\U{1D48}\U{1D49}\U{1DA0}\U{1D4D}\U{02B0}\U{1DA6}\U{02B2}\U{1D4F}\U{02E1}\U{1D50}\U{207F}\U{1D52}\U{1D56}\U{06F9}\U{02B3}\U{02E2}\U{1D57}\U{1D58}\U{1D5B}\U{02B7}\U{02E3}\U{02B8}\U{1DBB}" +
    "\U{2070}\U{00B9}\U{00B2}\U{00B3}\U{2074}\U{2075}\U{2076}\U{2077}\U{2078}\U{2079}" +
    "\U{207A}\U{207B}\U{207C}\U{207D}\U{207E}"

  /** A string whose characters rise step by step rises throughout. */
  lemma {:induction false} RisingDistinct(s: string)
    requires forall i :: 0 <= i < |s| - 1 ==> s[i] < s[i + 1]
    ensures forall i, j :: 0 <= i < j < |s| ==> s[i] < s[j]
    ensures Distinct(s)
  {
    if |s| > 1 {
      var t := s[1..];
      RisingDistinct(t);
      forall i, j | 0 <= i < j < |s| ensures s[i] < s[j] {
        if i > 0 {
          assert s[i] == t[i - 1] && s[j] == t[j - 1];
        } else if j > 1 {
          assert s[1] == t[0] && s[j] == t[j - 1];
        }
      }
    }
  }

  /** The letters are consecutive character codes from 'A'. */
  lemma UpperBounds()
    ensures |NormalUpper| == 26
    ensures forall i :: 0 <= i < 26 ==> NormalUpper[i] as int == 'A' as int + i
    ensures Distinct(NormalUpper)
    ensures forall i :: 0 <= i < |NormalUpper| ==> 'A' <= NormalUpper[i] <= 'Z'
  {
    assert forall i :: 0 <= i < 26 ==> NormalUpper[i] as int == 'A' as int + i;
    RisingDistinct(NormalUpper);
  }

  /** The letters are consecutive character codes from 'a'. */
  lemma LowerBounds()
    ensures |NormalLower| == 26
    ensures forall i :: 0 <= i < 26 ==> NormalLower[i] as int == 'a' as int + i
    ensures Distinct(NormalLower)
    ensures forall i :: 0 <= i < |NormalLower| ==> 'a' <= NormalLower[i] <= 'z'
  {
    assert forall i :: 0 <= i < 26 ==> NormalLower[i] as int == 'a' as int + i;
    RisingDistinct(NormalLower);
  }

  /** The digits are consecutive character codes from '0'; the signs lie outside the digits and letters. */
  lemma DigitSignBounds()
    ensures |NormalDigits| == 10
    ensures forall i :: 0 <= i < 10 ==> NormalDigits[i] as int == '0' as int + i
    ensures Distinct(NormalDigits) && Distinct(NormalSigns)
    ensures forall i :: 0 <= i < |NormalDigits| ==> '0' <= NormalDigits[i] <= '9'
    ensures forall i :: 0 <= i < |NormalSigns| ==> NormalSigns[i] < '0' || '9' < NormalSigns[i] < 'A'
  {
    assert forall i :: 0 <= i < 10 ==> NormalDigits[i] as int == '0' as int + i;
    RisingDistinct(NormalDigits);
  }

  /** The key string of get_super has no repetitions, so the table is positional. */
  lemma NormalDistinct()
    ensures |Normal| == |Superscripts| == 67
    ensures Distinct(Normal)
  {
    UpperBounds();
    LowerBounds();
    DigitSignBounds();
    DistinctConcat(NormalUpper, NormalLower);
    var ul := NormalUpper + NormalLower;
    assert forall i :: 0 <= i < |ul| ==> 'A' <= ul[i] <= 'z' by {
      forall i | 0 <= i < |ul| ensures 'A' <= ul[i] <= 'z' {
        if i >= |NormalUpper| { assert ul[i] == NormalLower[i - |NormalUpper|]; }
      }
    }
    DistinctConcat(ul, NormalDigits);
    var uld := ul + NormalDigits;
    assert forall i :: 0 <= i < |uld| ==> '0' <= uld[i] <= '9' || 'A' <= uld[i] by {
      forall i | 0 <= i < |uld| ensures '0' <= uld[i] <= '9' || 'A' <= uld[i] {
        if i >= |ul| { assert uld[i] == NormalDigits[i - |ul|]; }
      }
    }
    DistinctConcat(uld, NormalSigns);
  }

  /** `get_super(x)`: each character of Normal becomes the superscript at the same position. */
  function GetSuper(x: string): (r: string)
    ensures |r| == |x|
    ensures forall i, j :: 0 <= i < |x| && 0 <= j < |Normal| && x[i] == Normal[j] ==> r[i] == Superscripts[j]
    ensures forall i :: 0 <= i < |x| && x[i] !in Normal ==> r[i] == x[i]
  {
    NormalDistinct();
    MakeTransPositional(Normal, Superscripts);
    Translate(x, MakeTrans(Normal, Superscripts))
  }

  /** The positional table sends 'Q' to itself and 'q' to U+06F9. */
  lemma GetSuperQ()
    ensures GetSuper("Q") == "Q"
    ensures GetSuper("q") == "\U{06F9}"
  {
    assert Normal[16] == 'Q' && Superscripts[16] == 'Q';
    assert Normal[42] == 'q' && Superscripts[42] == '\U{06F9}';
  }

  /** The 21 characters `to_sup` converts, and their images. */
  const SupKeys: string := "0123456789abcdefghij-"
  const Sups: map<char, char> := map[
    '0' := '\U{2070}',
    '1' := '\U{00B9}',
    '2' := '\U{00B2}',
    '3' := '\U{00B3}',
    '4' := '\U{2074}',
    '5' := '\U{2075}',
    '6' := '\U{2076}',
    '7' := '\U{2077}',
    '8' := '\U{2078}',
    '9' := '\U{2079}',
    'a' := '\U{1D43}',
    'b' := '\U{1D47}',
    'c' := '\U{1D9C}',
    'd' := '\U{1D48}',
    'e' := '\U{1D49}',
    'f' := '\U{1DA0}',
    'g' := '\U{1D4D}',
    'h' := '\U{02B0}',
    'i' := '\U{2071}',
    'j' := '\U{02B2}',
    '-' := '\U{207B}'
  ]

  /** `to_sup(s)`: keyed characters replaced, all others kept, length unchanged. */
  function ToSup(s: string): (r: string)
    ensures |r| == |s|
    ensures forall i :: 0 <= i < |s| && s[i] in Sups ==> r[i] == Sups[s[i]]
    ensures forall i :: 0 <= i < |s| && s[i] !in Sups ==> r[i] == s[i]
  {
    Translate(s, Sups)
  }

  /** to_sup changes a character exactly when it is one of its 21 keys. */
  lemma ToSupChangesOnlyKeys(s: string, i: int)
    requires 0 <= i < |s|
    ensures ToSup(s)[i] != s[i] <==> s[i] in SupKeys
  {
    assert |SupKeys| == 21;
    assert forall c :: c in Sups <==> c in SupKeys;
    assert forall c :: c in Sups ==> Sups[c] != c;
  }

  /** Where the keys of to_sup sit in Normal, and how the two images compare there. */
  lemma SharedKeyPositions()
    ensures forall k :: 0 <= k < 10 ==> Normal[52 + k] == NormalDigits[k] && Sups[NormalDigits[k]] == Superscripts[52 + k]
    ensures forall k :: 0 <= k < 10 ==> Normal[26 + k] == NormalLower[k]
    ensures forall k :: 0 <= k < 10 ==> (Sups[NormalLower[k]] == Superscripts[26 + k] <==> k != 8)
    ensures Normal[63] == '-' && Sups['-'] == Superscripts[63]
  {
    SharedDigits();
    SharedLetters();
  }

  lemma SharedDigits()
    ensures forall k :: 0 <= k < 10 ==> Normal[52 + k] == NormalDigits[k] && Sups[NormalDigits[k]] == Superscripts[52 + k]
  {
  }

  lemma SharedLetters()
    ensures forall k :: 0 <= k < 10 ==> Normal[26 + k] == NormalLower[k]
    ensures forall k :: 0 <= k < 10 ==> (Sups[NormalLower[k]] == Superscripts[26 + k] <==> k != 8)
  {
  }

  /** The two tables agree on every key of to_sup except 'i' (U+2071 against U+1DA6). */
  lemma ToSupAgreesWithGetSuper(c: char)
    requires c in Sups
    ensures ToSup([c]) == GetSuper([c]) <==> c != 'i'
  {
    SharedKeyPositions();
    LowerBounds();
    DigitSignBounds();
    if '0' <= c <= '9' {
      var k := (c as int) - ('0' as int);
      assert NormalDigits[k] == c;
      assert GetSuper([c])[0] == Superscripts[52 + k];
    } else if c == '-' {
      assert GetSuper([c])[0] == Superscripts[63];
    } else {
      var k := (c as int) - ('a' as int);
      assert 0 <= k < 10;
      assert NormalLower[k] == c;
      assert GetSuper([c])[0] == Superscripts[26 + k];
    }
  }
}
