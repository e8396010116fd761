/**
 * List parsing, falsy-value cleanup and pixel widths of text
 * (fpbiolib/formatting.py). Its `to_sup` is the same table as the one in
 * fpbiolib/characters.py and is modelled once, as Characters.ToSup.
 */
module Formatting {
  import opened Wrappers
  import opened Strings
  import Characters

  /**
   * In `sci_notation` the exponent is rebuilt, by dropping a "+" and a
   * leading "0", as `str(e)` for a two-digit exponent e, and `get_super`
   * turns every one of its characters into a superscript: the digit d into
   * the superscript d and "-" into U+207B.
   */
  lemma ExponentSuperscripts(e: int)
    ensures |Characters.GetSuper(IntToString(e))| == |IntToString(e)|
    ensures forall i :: 0 <= i < |IntToString(e)| && IntToString(e)[i] == '-' ==>
      Characters.GetSuper(IntToString(e))[i] == '\U{207B}'
    ensures forall i :: 0 <= i < |IntToString(e)| && IntToString(e)[i] != '-' ==>
      '0' <= IntToString(e)[i] <= '9' &&
      Characters.GetSuper(IntToString(e))[i] == Characters.Superscripts[52 + (IntToString(e)[i] as int - '0' as int)]
  {
    IntToStringChars(e);
    SignDigitsSuper(IntToString(e));
  }

  /** `get_super` of a string made only of signs and digits, character by character. */
  lemma SignDigitsSuper(x: string)
    requires forall i :: 0 <= i < |x| ==> ('0' <= x[i] <= '9' || x[i] == '-')
    ensures |Characters.GetSuper(x)| == |x|
    ensures forall i :: 0 <= i < |x| && x[i] == '-' ==> Characters.GetSuper(x)[i] == '\U{207B}'
    ensures forall i :: 0 <= i < |x| && x[i] != '-' ==>
      '0' <= x[i] <= '9' && Characters.GetSuper(x)[i] == Characters.Superscripts[52 + (x[i] as int - '0' as int)]
  {
    forall i | 0 <= i < |x| {
      SignDigitSuper(x, i);
    }
  }

  /** `get_super` of one sign or digit. */
  lemma SignDigitSuper(x: string, i: int)
    requires 0 <= i < |x| && (x[i] == '-' || '0' <= x[i] <= '9')
    ensures x[i] == '-' ==> Characters.GetSuper(x)[i] == '\U{207B}'
    ensures x[i] != '-' ==> Characters.GetSuper(x)[i] == Characters.Superscripts[52 + (x[i] as int - '0' as int)]
  {
    Characters.DigitSignBounds();
    Characters.NormalDistinct();
    if x[i] == '-' {
      assert Characters.Normal[63] == '-';
      assert Characters.Superscripts[63] == '\U{207B}';
    } else {
      var k := x[i] as int - '0' as int;
      assert Characters.Normal[52 + k] == Characters.NormalDigits[k];
    }
  }

  // ---------------------------------------------------------------- process_str_list

  /** The characters `process_str_list` deletes before splitting, in the order it deletes them. */
  const BadChars: string := "]['"

  datatype ParseError = ValueError(piece: string)

  /** `[float(x) for x in parts]`, with `float` supplied as parse; fails at the first piece that does not parse. */
  function ParseAll(parts: seq<string>, parse: string -> Option<real>): (r: Result<seq<real>, ParseError>)
    ensures r.Success? <==> forall i :: 0 <= i < |parts| ==> parse(parts[i]).Some?
    ensures r.Success? ==> |r.value| == |parts|
    ensures r.Success? ==> forall i :: 0 <= i < |parts| ==> r.value[i] == parse(parts[i]).value
    ensures r.Failure? ==> exists i :: 0 <= i < |parts| && parts[i] == r.error.piece && parse(parts[i]).None?
                                     && forall k :: 0 <= k < i ==> parse(parts[k]).Some?
  {
    if parts == [] then Success([])
    else
      match parse(parts[0])
      case None => Failure(ValueError(parts[0]))
      case Some(v) =>
        var rest := ParseAll(parts[1..], parse);
        if rest.Failure? then
          assert exists i :: 0 <= i < |parts[1..]| && parts[1..][i] == rest.error.piece && parse(parts[1..][i]).None?
                             && forall k :: 0 <= k < i ==> parse(parts[1..][k]).Some?;
          var i :| 0 <= i < |parts[1..]| && parts[1..][i] == rest.error.piece && parse(parts[1..][i]).None?
                   && forall k :: 0 <= k < i ==> parse(parts[1..][k]).Some?;
          assert parts[i + 1] == rest.error.piece;
          assert forall k :: 0 <= k < i + 1 ==> parse(parts[k]).Some? by {
            forall k | 0 <= k < i + 1 ensures parse(parts[k]).Some? {
              if k > 0 { assert parts[k] == parts[1..][k - 1]; }
            }
          }
          Failure(rest.error)
        else
          Success([v] + rest.value)
  }

  /** Deleting characters other than c does not change how many c there are. */
  lemma {:induction false} FilterKeepsCount(s: string, drop: set<char>, c: char)
    requires c !in drop
    ensures CountChar(Filter(s, drop), c) == CountChar(s, c)
  {
    if s != [] {
      FilterKeepsCount(s[1..], drop, c);
    }
  }

  /**
   * `process_str_list`: None for a missing or empty string; otherwise the
   * brackets and quotes are deleted, the rest is split on commas and every
   * piece is converted by parse (Python's `float`).
   */
  method ProcessStrList(strList: Option<string>, parse: string -> Option<real>)
    returns (r: Result<Option<seq<real>>, ParseError>)
    ensures strList.None? || strList.value == "" ==> r == Success(None)
    ensures strList.Some? && strList.value != "" ==>
      var pieces := Split(Filter(strList.value, {']', '[', '\''}), ',');
      && (r.Success? <==> forall i :: 0 <= i < |pieces| ==> parse(pieces[i]).Some?)
      && (r.Success? ==> r.value.Some? && |r.value.value| == |pieces| == CountChar(strList.value, ',') + 1)
      && (r.Success? ==> forall i :: 0 <= i < |pieces| ==> r.value.value[i] == parse(pieces[i]).value)
      && (r.Failure? ==> exists i :: 0 <= i < |pieces| && pieces[i] == r.error.piece && parse(pieces[i]).None?)
  {
    if strList.None? || strList.value == "" {
      return Success(None);
    }
    var s := strList.value;
    FilterNothing(strList.value);
    ghost var dropped: set<char> := {};
    for i := 0 to |BadChars|
      invariant s == Filter(strList.value, dropped)
      invariant forall c :: c in dropped <==> c in BadChars[..i]
    {
      RemoveThenFilter(strList.value, dropped, BadChars[i]);
      assert BadChars[..i + 1] == BadChars[..i] + [BadChars[i]];
      s := RemoveChar(s, BadChars[i]);
      dropped := dropped + {BadChars[i]};
    }
    assert BadChars[..3] == BadChars;
    assert dropped == {']', '[', '\''};
    var parts := Split(s, ',');
    SplitCount(s, ',');
    FilterKeepsCount(strList.value, {']', '[', '\''}, ',');
    var values := ParseAll(parts, parse);
    if values.Failure? {
      return Failure(values.error);
    }
    return Success(Some(values.value));
  }

  // ---------------------------------------------------------------- none_to_empty_str

  /** The Python values a dictionary entry may hold, as far as truthiness is concerned. */
  datatype PyValue = PyNone | PyBool(b: bool) | PyInt(i: int) | PyFloat(f: real) | PyStr(s: string) | PyList(items: seq<PyValue>)

  /** Python truthiness: None, False, 0, 0.0, "" and [] are falsy. */
  predicate Truthy(v: PyValue)
  {
    match v
    case PyNone => false
    case PyBool(b) => b
    case PyInt(i) => i != 0
    case PyFloat(f) => f != 0.0
    case PyStr(s) => s != ""
    case PyList(items) => items != []
  }

  /** `{k: v or "" for k, v in d.items()}`. */
  function NoneToEmptyStr(d: map<string, PyValue>): (r: map<string, PyValue>)
    ensures r.Keys == d.Keys
    ensures forall k :: k in d && Truthy(d[k]) ==> r[k] == d[k]
    ensures forall k :: k in d && !Truthy(d[k]) ==> r[k] == PyStr("")
  {
    map k | k in d :: if Truthy(d[k]) then d[k] else PyStr("")
  }

  /** Cleaning twice is cleaning once, and afterwards the only falsy value left is "". */
  lemma NoneToEmptyStrIdempotent(d: map<string, PyValue>)
    ensures NoneToEmptyStr(NoneToEmptyStr(d)) == NoneToEmptyStr(d)
    ensures forall k :: k in d ==> Truthy(NoneToEmptyStr(d)[k]) || NoneToEmptyStr(d)[k] == PyStr("")
    ensures forall k :: k in d ==> NoneToEmptyStr(d)[k] != PyNone
  {
    var once := NoneToEmptyStr(d);
    var twice := NoneToEmptyStr(once);
    assert forall k :: k in once ==> twice[k] == once[k];
  }

  // ---------------------------------------------------------------- str_px_width

  datatype WidthError = UnknownFont(font: string) | MissingWidth(c: char)

  /** Pixel widths of the characters of each known font. */
  const FontWidths: map<string, map<char, real>> := map[
    "open_sans_12pt_px" := map[
      '.' := 4.0, '-' := 5.3, 'e' := 7.1, 'E' := 9.8,
      '0' := 8.0, '1' := 8.0, '2' := 8.0, '3' := 8.0, '4' := 8.0,
      '5' := 8.0, '6' := 8.0, '7' := 8.0, '8' := 8.0, '9' := 8.0
    ]
  ]

  /** The narrowest width the function reports. */
  const MinWidth: real := 11.0

  function Sum(xs: seq<real>): real
  {
    if xs == [] then 0.0 else xs[0] + Sum(xs[1..])
  }

  /** The width of each character of text, looked up in table. */
  function CharWidths(text: string, table: map<char, real>): (w: seq<real>)
    requires forall i :: 0 <= i < |text| ==> text[i] in table
    ensures |w| == |text|
    ensures forall i :: 0 <= i < |text| ==> w[i] == table[text[i]]
  {
    if text == [] then [] else [table[text[0]]] + CharWidths(text[1..], table)
  }

  /**
   * Python's `sum(generator)` over the widths, left to right from acc; table
   * is None when the font is unknown, which fails at the first character.
   */
  function SumFrom(text: string, table: Option<map<char, real>>, font: string, acc: real): Result<real, WidthError>
  {
    if text == [] then Success(acc)
    else if table.None? then Failure(UnknownFont(font))
    else if text[0] !in table.value then Failure(MissingWidth(text[0]))
    else SumFrom(text[1..], table, font, acc + table.value[text[0]])
  }

  /** `str_px_width`, with open_sans_12pt_px as its default font, without the final rendering as a "px" string. */
  function StrPxWidth(text: string, font: string := "open_sans_12pt_px"): (r: Result<real, WidthError>)
    ensures text == [] ==> r == Success(MinWidth)
    ensures text != [] && font !in FontWidths ==> r == Failure(UnknownFont(font))
    ensures font in FontWidths ==> (r.Success? <==> forall i :: 0 <= i < |text| ==> text[i] in FontWidths[font])
    ensures font in FontWidths && r.Failure? ==> r.error.MissingWidth? && r.error.c in text && r.error.c !in FontWidths[font]
    ensures r.Success? && text != [] ==>
      var total := Sum(CharWidths(text, FontWidths[font]));
      r.value == if total <= MinWidth then MinWidth else total
  {
    var table := if font in FontWidths then Some(FontWidths[font]) else None;
    SumFromFacts(text, table, font, 0.0);
    match SumFrom(text, table, font, 0.0)
    case Failure(e) => Failure(e)
    case Success(total) => Success(if total <= MinWidth then MinWidth else total)
  }

  /** The left-to-right sum fails exactly at a missing character and otherwise adds up the widths. */
  lemma {:induction false} SumFromFacts(text: string, table: Option<map<char, real>>, font: string, acc: real)
    ensures text != [] && table.None? ==> SumFrom(text, table, font, acc) == Failure(UnknownFont(font))
    ensures table.Some? ==>
      (SumFrom(text, table, font, acc).Success? <==> forall i :: 0 <= i < |text| ==> text[i] in table.value)
    ensures table.Some? && SumFrom(text, table, font, acc).Failure? ==>
      var e := SumFrom(text, table, font, acc).error;
      e.MissingWidth? && e.c in text && e.c !in table.value
    ensures table.Some? && (forall i :: 0 <= i < |text| ==> text[i] in table.value) ==>
      SumFrom(text, table, font, acc) == Success(acc + Sum(CharWidths(text, table.value)))
  {
    if text != [] && table.Some? {
      SumFromFacts(text[1..], table, font, acc + (if text[0] in table.value then table.value[text[0]] else 0.0));
      if text[0] in table.value && forall i :: 0 <= i < |text| ==> text[i] in table.value {
        assert CharWidths(text, table.value)[1..] == CharWidths(text[1..], table.value);
      }
    }
  }

  /** Without a font, the widths are those of open_sans_12pt_px; a short text is widened to the minimum. */
  lemma DefaultFontExample()
    ensures StrPxWidth("10.5") == Success(28.0)
    ensures StrPxWidth("1") == Success(MinWidth)
  {
    var w := CharWidths("10.5", FontWidths["open_sans_12pt_px"]);
    assert w == [8.0, 8.0, 4.0, 8.0];
    assert Sum(w[3..]) == 8.0;
    assert Sum(w[2..]) == 12.0;
    assert Sum(w[1..]) == 20.0;
  }

  /** Every width in the known fonts is positive. */
  lemma FontWidthsPositive()
    ensures forall f, c :: f in FontWidths && c in FontWidths[f] ==> FontWidths[f][c] > 0.0
  {
  }

  lemma {:induction false} SumAppend(a: seq<real>, b: seq<real>)
    ensures Sum(a + b) == Sum(a) + Sum(b)
  {
    if a == [] {
      assert a + b == b;
    } else {
      assert (a + b)[1..] == a[1..] + b;
      SumAppend(a[1..], b);
    }
  }

  lemma {:induction false} SumPositive(xs: seq<real>)
    requires forall i :: 0 <= i < |xs| ==> xs[i] > 0.0
    ensures Sum(xs) >= 0.0
    ensures xs != [] ==> Sum(xs) > 0.0
  {
    if xs != [] {
      SumPositive(xs[1..]);
    }
  }

  lemma {:induction false} CharWidthsAppend(a: string, b: string, table: map<char, real>)
    requires forall i :: 0 <= i < |a + b| ==> (a + b)[i] in table
    ensures forall i :: 0 <= i < |a| ==> a[i] in table
    ensures forall i :: 0 <= i < |b| ==> b[i] in table
    ensures CharWidths(a + b, table) == CharWidths(a, table) + CharWidths(b, table)
  {
    assert forall i :: 0 <= i < |a| ==> a[i] == (a + b)[i];
    assert forall i :: 0 <= i < |b| ==> b[i] == (a + b)[|a| + i];
    var whole, parts := CharWidths(a + b, table), CharWidths(a, table) + CharWidths(b, table);
    forall i | 0 <= i < |whole|
      ensures whole[i] == parts[i]
    {
      if i >= |a| {
        assert (a + b)[i] == b[i - |a|];
      }
    }
  }

  /** Appending characters to a measurable text never makes it narrower. */
  lemma WidthMonotone(a: string, b: string, font: string)
    requires StrPxWidth(a + b, font).Success?
    ensures StrPxWidth(a, font).Success?
    ensures StrPxWidth(a, font).value <= StrPxWidth(a + b, font).value
  {
    if a != [] {
      assert font in FontWidths;
      var table := FontWidths[font];
      CharWidthsAppend(a, b, table);
      SumAppend(CharWidths(a, table), CharWidths(b, table));
      FontWidthsPositive();
      SumPositive(CharWidths(b, table));
    }
  }
}
