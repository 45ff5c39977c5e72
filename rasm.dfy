/** convert_to_rasm.py: the script that rewrites the corpus into its dotless
    skeleton. It carries its own copy of the mark pattern, of both letter
    tables and of the contextual-form rule, and the per-line rewrite of
    `process_file`. */
module Rasm {
  import opened Wrappers
  import opened Text
  import Tashkeel

  /** The character class of `tashkeel_pattern`: U+064B to U+0652 and U+0670. */
  predicate IsMark(ch: char) {
    '\U{064B}' <= ch <= '\U{0652}' || ch == '\U{0670}'
  }

  /** `remove_tashkeel(text)`: `text` without its marks. */
  function RemoveTashkeel(text: string): (r: string)
    ensures |r| <= |text|
    ensures forall i :: 0 <= i < |r| ==> !IsMark(r[i])
    decreases |text|
  {
    if text == [] then []
    else if IsMark(text[0]) then RemoveTashkeel(text[1..])
    else [text[0]] + RemoveTashkeel(text[1..])
  }

  /** This file's `remove_tashkeel` is `strip_tashkeel` of tashkeel_utils.py,
      so it too deletes exactly the marks and keeps the rest in order. */
  lemma {:induction false} RemoveTashkeelAgrees(text: string)
    ensures RemoveTashkeel(text) == Tashkeel.StripTashkeel(text)
    decreases |text|
  {
    if text != [] {
      RemoveTashkeelAgrees(text[1..]);
    }
  }

  /** `dotless_map` as this file writes it. */
  const DotlessMap: map<char, char> := map[
    'ب' := 'ٮ',
    'ت' := 'ٮ',
    'ث' := 'ٮ',
    'ج' := 'ح',
    'خ' := 'ح',
    'ذ' := 'د',
    'ز' := 'ر',
    'ش' := 'س',
    'ض' := 'ص',
    'ظ' := 'ط',
    'غ' := 'ع',
    'ف' := 'ڡ',
    'ة' := 'ه',
    'أ' := 'ا',
    'إ' := 'ا',
    'آ' := 'ا',
    'ؤ' := 'و'
  ]

  /** `letter_placement` as this file writes it. */
  const LetterPlacement: map<char, Tashkeel.Forms> := map[
    'ق' := Tashkeel.Forms('ڡ', 'ڡ', 'ٯ', 'ٯ'),
    'ي' := Tashkeel.Forms('ٮ', 'ٮ', 'ى', 'ى'),
    'ئ' := Tashkeel.Forms('ٮ', 'ٮ', 'ى', 'ى'),
    'ن' := Tashkeel.Forms('ٮ', 'ٮ', 'ں', 'ں')
  ]

  /** Both files carry the same tables. */
  lemma TablesAgree()
    ensures DotlessMap == Tashkeel.DotlessMap
    ensures LetterPlacement == Tashkeel.LetterPlacement
  {
  }

  /** `get_contextual_form(char, prev_char, next_char)`. */
  function GetContextualForm(ch: char, prev: Option<char>, next: Option<char>): (r: char)
    ensures ch !in LetterPlacement ==> r == ch
  {
    if ch !in LetterPlacement then ch
    else
      var formType :=
        if prev == Some(' ') || prev.None? then
          (if next.Some? && next.value != ' ' then Tashkeel.Beginning else Tashkeel.Alone)
        else if next == Some(' ') || next.None? then Tashkeel.End
        else Tashkeel.Middle;
      LetterPlacement[ch].Of(formType)
  }

  /** The contextual-form rule is the one of tashkeel_utils.py. */
  lemma ContextualFormAgrees(ch: char, prev: Option<char>, next: Option<char>)
    ensures GetContextualForm(ch, prev, next) == Tashkeel.GetContextualForm(ch, prev, next)
  {
    TablesAgree();
  }

  /** The character the loop of `convert_to_rasm` appends for position `i`
      of the stripped text `s`. */
  function RasmAt(s: string, i: nat): char
    requires i < |s|
  {
    var prev := if i > 0 then Some(s[i - 1]) else None;
    var next := if i < |s| - 1 then Some(s[i + 1]) else None;
    var converted := if s[i] in DotlessMap then DotlessMap[s[i]] else s[i];
    if converted in LetterPlacement then GetContextualForm(converted, prev, next)
    else converted
  }

  /** What `convert_to_rasm(text)` returns. */
  function RasmText(text: string): (r: string)
    ensures |r| == |RemoveTashkeel(text)|
  {
    var s := RemoveTashkeel(text);
    seq(|s|, i requires 0 <= i < |s| => RasmAt(s, i))
  }

  /** `convert_to_rasm(text)`. */
  method ConvertToRasm(text: string) returns (r: string)
    ensures r == RasmText(text)
    ensures |r| == |RemoveTashkeel(text)|
  {
    var s := RemoveTashkeel(text);
    var rasm: string := [];
    var length := |s|;
    for i := 0 to length
      invariant |rasm| == i
      invariant forall j :: 0 <= j < i ==> rasm[j] == RasmAt(s, j)
    {
      var prev := if i > 0 then Some(s[i - 1]) else None;
      var next := if i < length - 1 then Some(s[i + 1]) else None;
      var converted := if s[i] in DotlessMap then DotlessMap[s[i]] else s[i];
      if converted in LetterPlacement {
        converted := GetContextualForm(converted, prev, next);
      }
      rasm := rasm + [converted];
    }
    r := rasm;
  }

  /** `convert_to_rasm(t)` and `remove_tashkeel(t)` of tashkeel_utils.py
      give the same text for every `t`. */
  lemma RasmTextAgrees(text: string)
    ensures RasmText(text) == Tashkeel.DotlessText(text)
  {
    RemoveTashkeelAgrees(text);
    TablesAgree();
    var s := RemoveTashkeel(text);
    forall i | 0 <= i < |s| ensures RasmAt(s, i) == Tashkeel.ConvertAt(s, i) {
      ContextualFormAgrees(if s[i] in DotlessMap then DotlessMap[s[i]] else s[i], Tashkeel.Prev(s, i), Tashkeel.Next(s, i));
    }
  }

  /** Position by position, as in tashkeel_utils.py: a character neither
      table knows stays, a `dotless_map` letter becomes its skeleton, and a
      `letter_placement` letter takes the form that its neighbours in the
      stripped text call for. */
  lemma RasmTextAt(text: string, i: nat)
    requires i < |RemoveTashkeel(text)|
    ensures var s := RemoveTashkeel(text);
            s[i] !in DotlessMap && s[i] !in LetterPlacement ==> RasmText(text)[i] == s[i]
    ensures var s := RemoveTashkeel(text);
            s[i] in DotlessMap ==> RasmText(text)[i] == DotlessMap[s[i]]
    ensures var s := RemoveTashkeel(text);
            s[i] in LetterPlacement ==> RasmText(text)[i] == GetContextualForm(s[i], Tashkeel.Prev(s, i), Tashkeel.Next(s, i))
  {
    RasmTextAgrees(text);
    RemoveTashkeelAgrees(text);
    TablesAgree();
    var s := RemoveTashkeel(text);
    Tashkeel.UndottedAt(s, i);
    ContextualFormAgrees(s[i], Tashkeel.Prev(s, i), Tashkeel.Next(s, i));
  }

  /** Converting a converted text changes nothing. */
  lemma RasmTextIdempotent(text: string)
    ensures RasmText(RasmText(text)) == RasmText(text)
  {
    RasmTextAgrees(text);
    RasmTextAgrees(RasmText(text));
    Tashkeel.DotlessTextIdempotent(text);
  }

  /** A `|` never comes out of the transform unless it went in. */
  lemma RasmTextKeepsBars(text: string)
    requires '|' !in text
    ensures '|' !in RasmText(text)
  {
    RasmTextAgrees(text);
    RemoveTashkeelAgrees(text);
    var s := RemoveTashkeel(text);
    Tashkeel.StripTashkeelCounts(text, '|');
    assert '|' !in s by {
      assert multiset(s)['|'] == 0;
    }
    Tashkeel.UndottedKeeps(s, '|');
  }

  /** Three fields without `|`, joined by `|`, split back into themselves. */
  lemma ThreeFields(a: string, b: string, c: string)
    requires '|' !in a && '|' !in b && '|' !in c
    ensures Split(a + "|" + b + "|" + c, '|') == [a, b, c]
  {
    var fields := [a, b, c];
    assert Join(fields, '|') == a + "|" + b + "|" + c by {
      assert fields[1..] == [b, c];
      assert fields[1..][1..] == [c];
      assert Join([c], '|') == c;
      assert Join([b, c], '|') == b + ['|'] + c;
      assert Join(fields, '|') == a + ['|'] + (b + ['|'] + c);
    }
    forall w | w in fields ensures '|' !in w {
      assert w == a || w == b || w == c;
    }
    SplitJoin(fields, '|');
  }

  /** The per-line rewrite of `process_file`: a line whose stripped text has
      exactly three `|` fields becomes `surah|ayah|rasm` with a newline;
      any other line is dropped. The line written reads back as the same
      surah and ayah with the converted text. */
  function RewriteLine(line: string): (r: Option<string>)
    ensures r.Some? <==> |Split(Strip(line), '|')| == 3
    ensures r.Some? ==>
              var parts := Split(Strip(line), '|');
              |r.value| > 0 && r.value[|r.value| - 1] == '\n' &&
              Split(r.value[..|r.value| - 1], '|') == [parts[0], parts[1], RasmText(parts[2])]
  {
    var parts := Split(Strip(line), '|');
    if |parts| == 3 then
      assert parts[0] in parts && parts[1] in parts && parts[2] in parts;
      RasmTextKeepsBars(parts[2]);
      ThreeFields(parts[0], parts[1], RasmText(parts[2]));
      var out := parts[0] + "|" + parts[1] + "|" + RasmText(parts[2]);
      assert (out + "\n")[..|out|] == out;
      Some(out + "\n")
    else None
  }
}
