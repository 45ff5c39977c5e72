/** The dotless (rasm) text transform of tashkeel_utils.py: the vowel marks
    are deleted, dotted letters become their dotless skeleton, and four
    letters take a form that depends on where they stand in a word. */
module Tashkeel {
  import opened Wrappers

  /** The character class of `tashkeel_pattern`, U+064B to U+0652 and U+0670: the marks
      from fathatan to sukun, and the superscript alef. */
  predicate IsTashkeel(ch: char) {
    '\U{064B}' <= ch <= '\U{0652}' || ch == '\U{0670}'
  }

  predicate NoTashkeel(s: string) {
    forall i :: 0 <= i < |s| ==> !IsTashkeel(s[i])
  }

  /** `strip_tashkeel(text)`, that is `tashkeel_pattern.sub('', text)`. */
  function StripTashkeel(text: string): (r: string)
    ensures |r| <= |text|
    ensures NoTashkeel(r)
    ensures NoTashkeel(text) ==> r == text
    decreases |text|
  {
    if text == [] then []
    else if IsTashkeel(text[0]) then StripTashkeel(text[1..])
    else [text[0]] + StripTashkeel(text[1..])
  }

  /** `r` is `t` with some characters deleted and the rest kept in order. */
  predicate IsSubsequence(r: string, t: string)
    decreases |t|
  {
    if r == [] then true
    else if t == [] then false
    else if r[0] == t[0] then IsSubsequence(r[1..], t[1..])
    else IsSubsequence(r, t[1..])
  }

  /** Stripping keeps the other characters in their order... */
  lemma {:induction false} StripTashkeelSubsequence(text: string)
    ensures IsSubsequence(StripTashkeel(text), text)
    decreases |text|
  {
    if text != [] {
      StripTashkeelSubsequence(text[1..]);
      var rest := StripTashkeel(text[1..]);
      if !IsTashkeel(text[0]) {
        assert StripTashkeel(text) == [text[0]] + rest;
        assert ([text[0]] + rest)[1..] == rest;
      } else if rest != [] {
        assert rest[0] != text[0] by {
          assert !IsTashkeel(rest[0]);
        }
      }
    }
  }

  /** ...deletes every mark and nothing else: each other character occurs
      as often as in the input, a mark not at all. */
  lemma {:induction false} StripTashkeelCounts(text: string, ch: char)
    ensures multiset(StripTashkeel(text))[ch] == if IsTashkeel(ch) then 0 else multiset(text)[ch]
    decreases |text|
  {
    if text != [] {
      StripTashkeelCounts(text[1..], ch);
      assert text == [text[0]] + text[1..];
      assert multiset(text) == multiset([text[0]]) + multiset(text[1..]);
      if !IsTashkeel(text[0]) {
        assert multiset(StripTashkeel(text)) == multiset([text[0]]) + multiset(StripTashkeel(text[1..]));
      }
    }
  }

  /** Stripping works piece by piece. */
  lemma {:induction false} StripTashkeelConcat(a: string, b: string)
    ensures StripTashkeel(a + b) == StripTashkeel(a) + StripTashkeel(b)
    decreases |a|
  {
    if a == [] {
      assert a + b == b;
    } else {
      assert (a + b)[0] == a[0] && (a + b)[1..] == a[1..] + b;
      StripTashkeelConcat(a[1..], b);
    }
  }

  /** Stripping twice is stripping once. */
  lemma StripTashkeelIdempotent(text: string)
    ensures StripTashkeel(StripTashkeel(text)) == StripTashkeel(text)
  {
  }

  /** `dotless_map`: dotted letters and hamza carriers to their skeleton. */
  const DotlessMap: map<char, char> := map[
    'ب' := 'ٮ',
    'ت' := 'ٮ',
    'ث' := 'ٮ',
    'ج' := 'ح',
    'خ' := 'ح',
    'ذ' := 'د',
    'ز' := 'ر',
    'ش' := 'س',
    'ض' := 'ص',
    'ظ' := 'ط',
    'غ' := 'ع',
    'ف' := 'ڡ',
    'ة' := 'ه',
    'أ' := 'ا',
    'إ' := 'ا',
    'آ' := 'ا',
    'ؤ' := 'و'
  ]

  /** The four keys of a `letter_placement` entry. */
  datatype Form = Beginning | Middle | End | Alone

  /** One `letter_placement` entry: the letter's shape in each position. */
  datatype Forms = Forms(beginning: char, middle: char, ending: char, alone: char) {
    function Of(f: Form): char {
      match f
      case Beginning => beginning
      case Middle => middle
      case End => ending
      case Alone => alone
    }
  }

  /** `letter_placement`: the letters whose dotless shape depends on their
      position in the word. */
  const LetterPlacement: map<char, Forms> := map[
    'ق' := Forms('ڡ', 'ڡ', 'ٯ', 'ٯ'),
    'ي' := Forms('ٮ', 'ٮ', 'ى', 'ى'),
    'ئ' := Forms('ٮ', 'ٮ', 'ى', 'ى'),
    'ن' := Forms('ٮ', 'ٮ', 'ں', 'ں')
  ]

  /** Every character either table can produce. */
  const Outputs: set<char> := {'ٮ', 'ح', 'د', 'ر', 'س', 'ص', 'ط', 'ع', 'ڡ', 'ه', 'ا', 'و', 'ٯ', 'ى', 'ں'}

  /** The tables only produce characters that neither table rewrites and
      that are not marks, and no letter is a key of both tables. */
  lemma TablesClosed()
    ensures forall k :: k in DotlessMap ==> DotlessMap[k] in Outputs
    ensures forall k, f :: k in LetterPlacement ==> LetterPlacement[k].Of(f) in Outputs
    ensures forall c :: c in Outputs ==> c !in DotlessMap
    ensures forall c :: c in Outputs ==> c !in LetterPlacement
    ensures forall c :: c in Outputs ==> !IsTashkeel(c)
    ensures forall k :: k in DotlessMap ==> k !in LetterPlacement
  {
    DotlessOutputs();
    PlacementOutputs();
    OutputsUndotted();
    OutputsUnplaced();
    OutputsUnmarked();
    KeysDisjoint();
  }

  lemma DotlessOutputs()
    ensures forall k :: k in DotlessMap ==> DotlessMap[k] in Outputs
  {
  }

  lemma PlacementOutputs()
    ensures forall k, f :: k in LetterPlacement ==> LetterPlacement[k].Of(f) in Outputs
  {
  }

  lemma OutputsUndotted()
    ensures forall c :: c in Outputs ==> c !in DotlessMap
  {
    forall c | c in Outputs ensures c !in DotlessMap {
      assert c in DotlessMap <==>
        c == 'ب' || c == 'ت' || c == 'ث' || c == 'ج' || c == 'خ' || c == 'ذ' || c == 'ز' || c == 'ش' || c == 'ض' ||
        c == 'ظ' || c == 'غ' || c == 'ف' || c == 'ة' || c == 'أ' || c == 'إ' || c == 'آ' || c == 'ؤ';
    }
  }

  lemma OutputsUnplaced()
    ensures forall c :: c in Outputs ==> c !in LetterPlacement
  {
    forall c | c in Outputs ensures c !in LetterPlacement {
      assert c in LetterPlacement <==> c == 'ق' || c == 'ي' || c == 'ئ' || c == 'ن';
    }
  }

  lemma OutputsUnmarked()
    ensures forall c :: c in Outputs ==> !IsTashkeel(c)
  {
  }

  lemma KeysDisjoint()
    ensures forall k :: k in DotlessMap ==> k !in LetterPlacement
  {
    forall c | c in DotlessMap ensures c !in LetterPlacement {
      assert c in LetterPlacement <==> c == 'ق' || c == 'ي' || c == 'ئ' || c == 'ن';
    }
  }

  /** `dotless_map.get(ch, ch)`. */
  function Dotless(ch: char): char {
    if ch in DotlessMap then DotlessMap[ch] else ch
  }

  /** A neighbour that starts a word after it: a space or nothing. */
  predicate IsWordBreak(neighbour: Option<char>) {
    neighbour.None? || neighbour == Some(' ')
  }

  /** The `form_type` chosen in `get_contextual_form`: beginning after a
      break and before a letter, alone between breaks, end after a letter
      and before a break, middle between letters. */
  function FormType(prev: Option<char>, next: Option<char>): (f: Form)
    ensures f == Beginning <==> IsWordBreak(prev) && !IsWordBreak(next)
    ensures f == Alone <==> IsWordBreak(prev) && IsWordBreak(next)
    ensures f == End <==> !IsWordBreak(prev) && IsWordBreak(next)
    ensures f == Middle <==> !IsWordBreak(prev) && !IsWordBreak(next)
  {
    if prev == Some(' ') || prev.None? then
      (if next.Some? && next.value != ' ' then Beginning else Alone)
    else if next == Some(' ') || next.None? then End
    else Middle
  }

  /** `get_contextual_form(char, prev_char, next_char)`. */
  function GetContextualForm(ch: char, prev: Option<char>, next: Option<char>): (r: char)
    ensures ch !in LetterPlacement ==> r == ch
  {
    if ch !in LetterPlacement then ch
    else LetterPlacement[ch].Of(FormType(prev, next))
  }

  /** With these tables only the next character matters: a placed letter
      before a break takes its final shape, otherwise its medial one,
      whatever precedes it. */
  lemma ContextualFormByNext(ch: char, prev: Option<char>, next: Option<char>)
    requires ch in LetterPlacement
    ensures GetContextualForm(ch, prev, next) ==
            if IsWordBreak(next) then LetterPlacement[ch].ending else LetterPlacement[ch].middle
  {
  }

  /** The neighbours the loop of `remove_tashkeel` passes for position `i`:
      none before the first character and none after the last. */
  function Prev(s: string, i: nat): Option<char>
    requires i < |s|
  {
    if i > 0 then Some(s[i - 1]) else None
  }

  function Next(s: string, i: nat): Option<char>
    requires i < |s|
  {
    if i < |s| - 1 then Some(s[i + 1]) else None
  }

  /** The character the loop appends for position `i` of the stripped text. */
  function ConvertAt(s: string, i: nat): char
    requires i < |s|
  {
    var converted := Dotless(s[i]);
    if converted in LetterPlacement then GetContextualForm(converted, Prev(s, i), Next(s, i))
    else converted
  }

  /** The loop of `remove_tashkeel` over an already stripped text. */
  function Undotted(s: string): (r: string)
    ensures |r| == |s|
  {
    seq(|s|, i requires 0 <= i < |s| => ConvertAt(s, i))
  }

  /** What `remove_tashkeel(text)` returns. */
  function DotlessText(text: string): (r: string)
    ensures |r| == |StripTashkeel(text)|
  {
    Undotted(StripTashkeel(text))
  }

  /** `remove_tashkeel(text)`: strip the marks, then rewrite each character
      with its neighbours in the stripped text. */
  method RemoveTashkeel(text: string) returns (r: string)
    ensures r == DotlessText(text)
    ensures |r| == |StripTashkeel(text)|
  {
    var s := StripTashkeel(text);
    var stripped: string := [];
    var length := |s|;
    for i := 0 to length
      invariant |stripped| == i
      invariant forall j :: 0 <= j < i ==> stripped[j] == ConvertAt(s, j)
    {
      var prev := if i > 0 then Some(s[i - 1]) else None;
      var next := if i < length - 1 then Some(s[i + 1]) else None;
      var converted := Dotless(s[i]);
      if converted in LetterPlacement {
        converted := GetContextualForm(converted, prev, next);
      }
      stripped := stripped + [converted];
    }
    r := stripped;
  }

  /** A character neither table knows, a space for instance, stays where it
      is; a `dotless_map` letter becomes its skeleton; a `letter_placement`
      letter takes the shape its neighbours in the stripped text call for. */
  lemma UndottedAt(s: string, i: nat)
    requires i < |s|
    ensures s[i] !in DotlessMap && s[i] !in LetterPlacement ==> Undotted(s)[i] == s[i]
    ensures s[i] in DotlessMap ==> Undotted(s)[i] == DotlessMap[s[i]]
    ensures s[i] in LetterPlacement ==> Undotted(s)[i] == LetterPlacement[s[i]].Of(FormType(Prev(s, i), Next(s, i)))
  {
    TablesClosed();
  }

  /** Each output character is its input character or a table output. */
  lemma UndottedOutput(s: string, i: nat)
    requires i < |s|
    ensures Undotted(s)[i] == s[i] || Undotted(s)[i] in Outputs
  {
    TablesClosed();
  }

  /** A character no table produces appears in the output only where it
      stood in the input. */
  lemma UndottedKeeps(s: string, c: char)
    requires c !in Outputs
    ensures forall i :: 0 <= i < |s| && Undotted(s)[i] == c ==> s[i] == c
  {
    forall i | 0 <= i < |s| && Undotted(s)[i] == c ensures s[i] == c {
      UndottedOutput(s, i);
    }
  }

  /** A text made only of characters the tables leave alone is its own
      dotless form. */
  lemma UndottedFixed(s: string)
    requires forall i :: 0 <= i < |s| ==> s[i] !in DotlessMap && s[i] !in LetterPlacement
    ensures Undotted(s) == s
  {
    forall i | 0 <= i < |s| ensures Undotted(s)[i] == s[i] {
      UndottedAt(s, i);
    }
  }

  /** The transform is idempotent: a dotless text has nothing left to strip
      or rewrite. */
  lemma DotlessTextIdempotent(text: string)
    ensures DotlessText(DotlessText(text)) == DotlessText(text)
  {
    var s := StripTashkeel(text);
    var u := Undotted(s);
    TablesClosed();
    forall i | 0 <= i < |u|
      ensures !IsTashkeel(u[i]) && u[i] !in DotlessMap && u[i] !in LetterPlacement
    {
      UndottedOutput(s, i);
      UndottedAt(s, i);
    }
    assert StripTashkeel(u) == u;
    UndottedFixed(u);
  }
}
