/** services/ai-prompt-service.js over models/ai-prompt-model.js: the stored prompt
    templates, the query by genre and language (exact match first, then a pattern built
    from the genre's words) and the default set written by initialization. A regular
    expression test is the parameter `matches(pattern, genre)`: the `$regex` query with the
    'i' flag is not modelled; the defaults' prompt texts are the parameter `texts`. */
module AiPrompts {
  import opened Wrappers
  import opened Strings
  import ContentPrompts

  datatype AiPrompt = AiPrompt(
    genre: string,
    language: string,
    classLevel: string,
    promptText: string,
    baseRequirements: Option<string>,
    isActive: bool)

  // ---------------------------------------------------------------- the fallback pattern

  /** The characters of `/[.*+?^${}()|[\]\\]/`. */
  predicate IsMeta(c: char) {
    c == '.' || c == '*' || c == '+' || c == '?' || c == '^' || c == '$' || c == '{' || c == '}'
    || c == '(' || c == ')' || c == '|' || c == '[' || c == ']' || c == '\\'
  }

  /** `s.replace(/[.*+?^${}()|[\]\\]/g, '\\$&')`: a backslash before every metacharacter. */
  function Escape(s: string): (r: string)
    ensures |r| >= |s|
  {
    if |s| == 0 then ""
    else (if IsMeta(s[0]) then ['\\', s[0]] else [s[0]]) + Escape(s[1..])
  }

  /** Reads an escaped string back: a backslash stands for the character after it. */
  function Unescape(s: string): string {
    if |s| == 0 then ""
    else if s[0] == '\\' && |s| >= 2 then [s[1]] + Unescape(s[2..])
    else [s[0]] + Unescape(s[1..])
  }

  /** `s` without its leading white space. */
  function SkipSpaces(s: string): (r: string)
    ensures |r| <= |s| && r == s[|s| - |r|..]
    ensures forall i :: 0 <= i < |s| - |r| ==> IsSpace(s[i])
    ensures |r| > 0 ==> !IsSpace(r[0])
  {
    if |s| > 0 && IsSpace(s[0]) then SkipSpaces(s[1..]) else s
  }

  /** `s.split(/\s+/)`: the pieces between runs of white space, with an empty piece before
      a leading run and after a trailing one. */
  function SplitSpaces(s: string): (r: seq<string>)
    ensures |r| >= 1
    decreases |s|
  {
    if |s| == 0 then [""]
    else if IsSpace(s[0]) then [""] + SplitSpaces(SkipSpaces(s))
    else
      var rest := SplitSpaces(s[1..]);
      [[s[0]] + rest[0]] + rest[1..]
  }

  /** `.filter(word => word.length > 2)`. */
  function LongWords(ws: seq<string>): (r: seq<string>)
    ensures forall i :: 0 <= i < |r| ==> |r[i]| > 2
    ensures forall w :: w in r <==> w in ws && |w| > 2
  {
    if |ws| == 0 then []
    else if |ws[0]| > 2 then [ws[0]] + LongWords(ws[1..])
    else LongWords(ws[1..])
  }

  /** `safeGenrePattern`: escape, split on white space, keep the words longer than two
      characters (counted after escaping) and join them with '|'. */
  function GenrePattern(genre: string): string {
    Join(LongWords(SplitSpaces(Escape(genre))), '|')
  }

  // ---------------------------------------------------------------- the query

  /** The prompts, in store order, that satisfy `keep`. */
  function Select(store: seq<AiPrompt>, keep: AiPrompt -> bool): (r: seq<AiPrompt>)
    ensures forall p :: p in r <==> p in store && keep(p)
    ensures |r| <= |store|
  {
    if |store| == 0 then []
    else if keep(store[0]) then [store[0]] + Select(store[1..], keep)
    else Select(store[1..], keep)
  }

  /** `find({ genre, language, isActive: true })`. */
  function ExactPrompts(store: seq<AiPrompt>, genre: string, language: string): (r: seq<AiPrompt>)
    ensures forall p :: p in r <==> p in store && p.genre == genre && p.language == language && p.isActive
  {
    Select(store, (p: AiPrompt) => p.genre == genre && p.language == language && p.isActive)
  }

  /** `find({ genre: { $regex }, language, isActive: true })`. */
  function PatternPrompts(store: seq<AiPrompt>, pattern: string, language: string, matches: (string, string) -> bool)
    : (r: seq<AiPrompt>)
    ensures forall p :: p in r <==> p in store && matches(pattern, p.genre) && p.language == language && p.isActive
  {
    Select(store, (p: AiPrompt) => matches(pattern, p.genre) && p.language == language && p.isActive)
  }

  /** getPromptsByGenreAndLanguage. */
  function PromptsByGenreAndLanguage(store: seq<AiPrompt>, genre: string, language: string,
                                     matches: (string, string) -> bool): (r: seq<AiPrompt>)
    ensures |ExactPrompts(store, genre, language)| > 0 ==> r == ExactPrompts(store, genre, language)
    ensures |ExactPrompts(store, genre, language)| == 0 && GenrePattern(genre) == "" ==> r == []
    ensures |ExactPrompts(store, genre, language)| == 0 && GenrePattern(genre) != "" ==>
      r == PatternPrompts(store, GenrePattern(genre), language, matches)
    ensures forall p :: p in r ==> p in store && p.language == language && p.isActive
  {
    var prompts := ExactPrompts(store, genre, language);
    if |prompts| == 0 then
      var pattern := GenrePattern(genre);
      if pattern != "" then PatternPrompts(store, pattern, language, matches) else prompts
    else prompts
  }

  // ---------------------------------------------------------------- the default set

  const Kyrgyz: string := ContentPrompts.Kyrgyz
  const Russian: string := "Русский"

  /** The genre names of the default prompts. */
  const FairyTale: string := "Жомок (Фантазияга негизделген кызыктуу окуялар.)"
  /** The fairy tale as the second default spells it, with a Latin 'k' for the Cyrillic 'к'. */
  const FairyTaleLatinK: string := "Жомок (Фантазияга негизделген кызыkтуу окуялар.)"
  /** The Russian-named fairy tale, with the same Latin 'k'. */
  const RussianFairyTaleLatinK: string := "Сказка (Фантазияга негизделген кызыkтуу окуялар.)"
  /** The Russian-named fairy tale spelled in Cyrillic throughout. */
  const RussianFairyTale: string := "Сказка (Фантазияга негизделген кызыктуу окуялар.)"
  const Poem: string := "Ыр (Рифмалуу жана ритмдүү текст.)"
  const RussianPoem: string := "Стихотворение (Рифмалуу жана ритмдүү текст.)"
  const Story: string := "Аңгеме (Кыска, түшүнүктүү окуя.)"
  const Essay: string := "Эссе (Жеке ойлор жана сезимдер жазылган текст.)"
  const Description: string := "Сүреттөмө текст (Бир нерсени сүрөттөп берүүчү жазуу.)"
  const DescriptionVariant: string := "Сүрөттөмө текст (Бир нерсени сүрөттөп берүүчү жазуу.)"
  const DailyLife: string := "Күнүмдүк жашоо баяны (Жашоодон алынган кыска окуялар.)"
  const Letter: string := "Кат (Досторго же үй-бүлөгө арналган кыска билдирүүлөр.)"
  const Science: string := "Илимий текстер (Илим-билимге байланыштуу маалыматтык текстер.)"
  const RussianStory: string := "Рассказ (Кыска, түшүнүктүү окуя.)"
  const RussianDescription: string := "Описательный текст (Бир нерсени сүрөттөп берүүчү жазуу.)"

  /** The genre and language of one default prompt. */
  datatype PromptKey = PromptKey(genre: string, language: string)

  /** The 22 default prompts' genres and languages in the order of the source, with the
      Latin 'k' it has in the second and third genre names. */
  function DefaultKeysAsWritten(): (ks: seq<PromptKey>)
    ensures |ks| == 22
  {
    [
      PromptKey(FairyTale, Kyrgyz),
      PromptKey(FairyTaleLatinK, Russian),
      PromptKey(RussianFairyTaleLatinK, Russian),
      PromptKey(Poem, Kyrgyz),
      PromptKey(Poem, Russian),
      PromptKey(RussianPoem, Russian),
      PromptKey(Story, Kyrgyz),
      PromptKey(Story, Russian),
      PromptKey(Essay, Kyrgyz),
      PromptKey(Essay, Russian),
      PromptKey(Description, Kyrgyz),
      PromptKey(Description, Russian),
      PromptKey(DescriptionVariant, Kyrgyz),
      PromptKey(DescriptionVariant, Russian),
      PromptKey(DailyLife, Kyrgyz),
      PromptKey(DailyLife, Russian),
      PromptKey(Letter, Kyrgyz),
      PromptKey(Letter, Russian),
      PromptKey(Science, Kyrgyz),
      PromptKey(Science, Russian),
      PromptKey(RussianStory, Russian),
      PromptKey(RussianDescription, Russian)
    ]
  }

  /** The same keys with those two letters the Cyrillic 'к' of every other mention. */
  function DefaultKeys(): (ks: seq<PromptKey>)
    ensures |ks| == 22
  {
    [
      PromptKey(FairyTale, Kyrgyz),
      PromptKey(FairyTale, Russian),
      PromptKey(RussianFairyTale, Russian),
      PromptKey(Poem, Kyrgyz),
      PromptKey(Poem, Russian),
      PromptKey(RussianPoem, Russian),
      PromptKey(Story, Kyrgyz),
      PromptKey(Story, Russian),
      PromptKey(Essay, Kyrgyz),
      PromptKey(Essay, Russian),
      PromptKey(Description, Kyrgyz),
      PromptKey(Description, Russian),
      PromptKey(DescriptionVariant, Kyrgyz),
      PromptKey(DescriptionVariant, Russian),
      PromptKey(DailyLife, Kyrgyz),
      PromptKey(DailyLife, Russian),
      PromptKey(Letter, Kyrgyz),
      PromptKey(Letter, Russian),
      PromptKey(Science, Kyrgyz),
      PromptKey(Science, Russian),
      PromptKey(RussianStory, Russian),
      PromptKey(RussianDescription, Russian)
    ]
  }

  /** Every key becomes an active prompt for all class levels with the shared requirements. */
  function PromptsFor(ks: seq<PromptKey>, texts: seq<string>, base: string): (r: seq<AiPrompt>)
    requires |texts| == |ks|
    ensures |r| == |ks|
    ensures forall i :: 0 <= i < |r| ==>
      r[i] == AiPrompt(ks[i].genre, ks[i].language, "all", texts[i], Some(base), true)
  {
    if |ks| == 0 then []
    else [AiPrompt(ks[0].genre, ks[0].language, "all", texts[0], Some(base), true)] + PromptsFor(ks[1..], texts[1..], base)
  }

  /** initializeDefaultPrompts: `deleteMany({})`, then `insertMany` of the defaults as the
      source spells them, so the store holds exactly those defaults whatever it held before. */
  function InitializeDefaultPrompts(store: seq<AiPrompt>, texts: seq<string>, base: string): (r: seq<AiPrompt>)
    requires |texts| == 22
    ensures |r| == 22
    ensures forall p :: p in r ==> p.isActive && p.classLevel == "all" && p.baseRequirements == Some(base)
    ensures forall i :: 0 <= i < 22 ==>
      r[i].genre == DefaultKeysAsWritten()[i].genre && r[i].language == DefaultKeysAsWritten()[i].language
  {
    PromptsFor(DefaultKeysAsWritten(), texts, base)
  }

  /** The same initialization with the Latin letters of the Russian fairy-tale genres
      replaced by the Cyrillic ones. */
  function InitializeCorrectedPrompts(store: seq<AiPrompt>, texts: seq<string>, base: string): (r: seq<AiPrompt>)
    requires |texts| == 22
    ensures |r| == 22
    ensures forall p :: p in r ==> p.isActive && p.classLevel == "all" && p.baseRequirements == Some(base)
    ensures forall i :: 0 <= i < 22 ==> r[i].genre == DefaultKeys()[i].genre && r[i].language == DefaultKeys()[i].language
  {
    PromptsFor(DefaultKeys(), texts, base)
  }

  /** forceUpdatePrompts: clear, then initialize. */
  function ForceUpdatePrompts(store: seq<AiPrompt>, texts: seq<string>, base: string): (r: seq<AiPrompt>)
    requires |texts| == 22
    ensures r == InitializeDefaultPrompts(store, texts, base)
  {
    InitializeDefaultPrompts([], texts, base)
  }

  // ---------------------------------------------------------------- properties of the pattern

  /** Escaping can be undone: no character is lost or changed. */
  lemma {:induction false} EscapeRoundTrip(s: string)
    ensures Unescape(Escape(s)) == s
  {
    if |s| > 0 {
      EscapeRoundTrip(s[1..]);
      var e := Escape(s);
      if IsMeta(s[0]) {
        assert e == ['\\', s[0]] + Escape(s[1..]);
        assert e[2..] == Escape(s[1..]);
      } else {
        assert e == [s[0]] + Escape(s[1..]);
        assert e[1..] == Escape(s[1..]);
      }
      assert [s[0]] + s[1..] == s;
    }
  }

  /** Escaping works character by character. */
  lemma {:induction false} EscapeAppend(a: string, b: string)
    ensures Escape(a + b) == Escape(a) + Escape(b)
  {
    if |a| > 0 {
      assert (a + b)[1..] == a[1..] + b;
      EscapeAppend(a[1..], b);
    } else {
      assert a + b == b;
    }
  }

  /** A string without metacharacters is its own escape. */
  lemma {:induction false} EscapePlain(s: string)
    requires forall i :: 0 <= i < |s| ==> !IsMeta(s[i])
    ensures Escape(s) == s
  {
    if |s| > 0 {
      EscapePlain(s[1..]);
      assert [s[0]] + s[1..] == s;
    }
  }

  /** The non-white-space characters of `s`, in order. */
  function NoSpaces(s: string): (r: string)
    ensures forall i :: 0 <= i < |r| ==> !IsSpace(r[i])
  {
    if |s| == 0 then "" else (if IsSpace(s[0]) then "" else [s[0]]) + NoSpaces(s[1..])
  }

  /** The pieces laid end to end. */
  function Concat(ws: seq<string>): string {
    if |ws| == 0 then "" else ws[0] + Concat(ws[1..])
  }

  lemma {:induction false} SkipSpacesDropsOnlySpaces(s: string)
    ensures NoSpaces(SkipSpaces(s)) == NoSpaces(s)
  {
    if |s| > 0 && IsSpace(s[0]) {
      SkipSpacesDropsOnlySpaces(s[1..]);
    }
  }

  /** Splitting loses exactly the white space: the pieces together are the other characters. */
  lemma {:induction false} SplitKeepsEverythingElse(s: string)
    ensures Concat(SplitSpaces(s)) == NoSpaces(s)
    decreases |s|
  {
    if |s| == 0 {
    } else if IsSpace(s[0]) {
      var rest := SplitSpaces(SkipSpaces(s));
      SplitKeepsEverythingElse(SkipSpaces(s));
      SkipSpacesDropsOnlySpaces(s);
      assert ([""] + rest)[1..] == rest;
      assert NoSpaces(s) == NoSpaces(s[1..]);
      SkipSpacesDropsOnlySpaces(s[1..]);
    } else {
      var rest := SplitSpaces(s[1..]);
      SplitKeepsEverythingElse(s[1..]);
      var r := [[s[0]] + rest[0]] + rest[1..];
      assert r[1..] == rest[1..];
      assert Concat(rest) == rest[0] + Concat(rest[1..]);
      assert Concat(r) == [s[0]] + rest[0] + Concat(rest[1..]);
    }
  }

  /** No piece holds white space. */
  lemma {:induction false} PiecesHaveNoSpace(s: string)
    ensures forall w, i :: w in SplitSpaces(s) && 0 <= i < |w| ==> !IsSpace(w[i])
    decreases |s|
  {
    if |s| == 0 {
    } else if IsSpace(s[0]) {
      PiecesHaveNoSpace(SkipSpaces(s));
    } else {
      PiecesHaveNoSpace(s[1..]);
      var rest := SplitSpaces(s[1..]);
      assert forall i :: 0 <= i < |rest[0]| ==> !IsSpace(rest[0][i]) by { assert rest[0] in rest; }
      forall w | w in rest[1..]
        ensures w in rest
      {
      }
    }
  }

  /** Escaping neither adds nor removes white space, so the pieces hold the escaped genre
      without its white space. */
  lemma {:induction false} EscapeKeepsSpaces(s: string)
    ensures NoSpaces(Escape(s)) == Escape(NoSpaces(s))
  {
    if |s| > 0 {
      var c := s[0];
      EscapeKeepsSpaces(s[1..]);
      var head := Escape([c]);
      EscapeHead(s);
      NoSpacesAppend(head, Escape(s[1..]));
      MetaNotSpace(c);
      if IsSpace(c) {
        assert head == [c];
        assert NoSpaces(head) == "";
        assert NoSpaces(s) == NoSpaces(s[1..]);
      } else {
        NoSpacesPlain(head);
        assert NoSpaces(s) == [c] + NoSpaces(s[1..]);
        EscapeAppend([c], NoSpaces(s[1..]));
      }
    }
  }

  lemma EscapeHead(s: string)
    requires |s| > 0
    ensures Escape(s) == Escape([s[0]]) + Escape(s[1..])
  {
    EscapeAppend([s[0]], s[1..]);
    assert [s[0]] + s[1..] == s;
  }

  /** Neither a metacharacter nor the backslash put before it is white space. */
  lemma MetaNotSpace(c: char)
    ensures IsMeta(c) ==> !IsSpace(c)
    ensures !IsSpace('\\')
    ensures IsSpace(c) ==> Escape([c]) == [c]
    ensures !IsSpace(c) ==> forall i :: 0 <= i < |Escape([c])| ==> !IsSpace(Escape([c])[i])
  {
    assert Escape([c]) == (if IsMeta(c) then ['\\', c] else [c]) + Escape([]);
  }

  lemma {:induction false} NoSpacesPlain(s: string)
    requires forall i :: 0 <= i < |s| ==> !IsSpace(s[i])
    ensures NoSpaces(s) == s
  {
    if |s| > 0 {
      NoSpacesPlain(s[1..]);
      assert [s[0]] + s[1..] == s;
    }
  }

  lemma {:induction false} NoSpacesAppend(a: string, b: string)
    ensures NoSpaces(a + b) == NoSpaces(a) + NoSpaces(b)
  {
    if |a| > 0 {
      assert (a + b)[1..] == a[1..] + b;
      NoSpacesAppend(a[1..], b);
    } else {
      assert a + b == b;
    }
  }

  /** Joining non-empty words gives "" only when there are none. */
  lemma {:induction false} JoinEmptyIff(ws: seq<string>, sep: char)
    requires forall i :: 0 <= i < |ws| ==> |ws[i]| > 0
    ensures Join(ws, sep) == "" <==> |ws| == 0
  {
    if |ws| > 1 {
      assert |Join(ws, sep)| >= |ws[|ws| - 1]|;
    }
  }

  /** The pattern is empty exactly when no word of the escaped genre is longer than two
      characters, which is when the fallback query is skipped. */
  lemma PatternEmptyIff(genre: string)
    ensures GenrePattern(genre) == "" <==> forall w :: w in SplitSpaces(Escape(genre)) ==> |w| <= 2
  {
    var ws := LongWords(SplitSpaces(Escape(genre)));
    JoinEmptyIff(ws, '|');
    if |ws| > 0 {
      assert ws[0] in ws;
    }
  }

  /** Length is measured after escaping: "a." has a two-character word, kept as the pattern
      `a\.` once its dot is escaped, and a two-letter word alone gives no pattern. */
  lemma WordsMeasuredAfterEscaping()
    ensures GenrePattern("a.") == "a\\."
    ensures GenrePattern("ab") == ""
  {
    EscapedDotPattern();
    TwoLettersNoPattern();
  }

  lemma EscapedDotPattern()
    ensures GenrePattern("a.") == "a\\."
  {
    EscapedDot();
    var e := "a\\.";
    assert !IsSpace(e[0]) && !IsSpace(e[1]) && !IsSpace(e[2]);
    OneWord(e);
    assert LongWords([e]) == [e];
  }

  lemma TwoLettersNoPattern()
    ensures GenrePattern("ab") == ""
  {
    var e := "ab";
    assert !IsMeta(e[0]) && !IsMeta(e[1]);
    EscapePlain(e);
    assert !IsSpace(e[0]) && !IsSpace(e[1]);
    OneWord(e);
    assert LongWords([e]) == [];
  }

  lemma EscapedDot()
    ensures Escape("a.") == "a\\."
  {
    assert IsMeta('.') && !IsMeta('a');
    assert Escape(".") == "\\.";
    assert "a." == ['a'] + ".";
  }

  /** A string without white space is a single piece. */
  lemma {:induction false} OneWord(s: string)
    requires forall i :: 0 <= i < |s| ==> !IsSpace(s[i])
    ensures SplitSpaces(s) == [s]
  {
    if |s| > 0 {
      OneWord(s[1..]);
      assert [s[0]] + s[1..] == s;
    }
  }

  // ---------------------------------------------------------------- the query and the default set

  /** The speed-reading templates name the fairy tale as the first default does. */
  lemma FairyTaleSharedWithTemplates()
    ensures ContentPrompts.Genres()[0].name == FairyTale
  {
  }

  /** The key an exact query for the Russian fairy-tale prompt looks for. */
  function RussianFairyTaleKey(): PromptKey {
    PromptKey(FairyTale, Russian)
  }

  /** No key of the source's list is the Russian fairy tale: its genre name differs from the
      Cyrillic spelling by the Latin letter at position 34. */
  lemma AsWrittenKeysMissRussianFairyTale()
    ensures forall i :: 0 <= i < 22 ==> DefaultKeysAsWritten()[i] != RussianFairyTaleKey()
  {
    var ks := DefaultKeysAsWritten();
    var k := RussianFairyTaleKey();
    assert ks[1].genre[34] != k.genre[34];
    assert ks[0] != k;
    assert ks[1] != k;
    assert ks[2] != k;
  }

  /** In the corrected list the second key, and only that one, is the Russian fairy tale. */
  lemma KeysHoldRussianFairyTaleOnce()
    ensures DefaultKeys()[1] == RussianFairyTaleKey()
    ensures forall i :: 0 <= i < 22 && i != 1 ==> DefaultKeys()[i] != RussianFairyTaleKey()
  {
    var ks := DefaultKeys();
    var k := RussianFairyTaleKey();
    assert ks[0] != k;
    assert ks[2] != k;
  }

  /** A store whose prompts all miss the key gives no exact match for it. */
  lemma NoExactMatch(store: seq<AiPrompt>, ks: seq<PromptKey>, texts: seq<string>, base: string, k: PromptKey)
    requires |texts| == |ks| && store == PromptsFor(ks, texts, base)
    requires forall i :: 0 <= i < |ks| ==> ks[i] != k
    ensures ExactPrompts(store, k.genre, k.language) == []
  {
    forall i | 0 <= i < |store|
      ensures !(store[i].genre == k.genre && store[i].language == k.language)
    {
      assert ks[i] != k;
    }
    NoExactWhenAllMiss(store, k.genre, k.language);
  }

  lemma {:induction false} NoExactWhenAllMiss(store: seq<AiPrompt>, genre: string, language: string)
    requires forall i :: 0 <= i < |store| ==> !(store[i].genre == genre && store[i].language == language)
    ensures ExactPrompts(store, genre, language) == []
  {
    if |store| > 0 {
      NoExactWhenAllMiss(store[1..], genre, language);
    }
  }

  /** The first word of a genre is the first piece of the split. */
  lemma {:induction false} FirstPiece(w: string, x: string)
    requires forall i :: 0 <= i < |w| ==> !IsSpace(w[i])
    ensures SplitSpaces(w + " " + x)[0] == w
  {
    if |w| == 0 {
      assert w + " " + x == [' '] + x;
    } else {
      assert (w + " " + x)[1..] == w[1..] + " " + x;
      FirstPiece(w[1..], x);
      assert [w[0]] + w[1..] == w;
    }
  }

  /** A genre whose first word has more than two characters and nothing to escape, like
      every default genre, gives a non-empty pattern: its queries reach the fallback when
      the exact match is empty. */
  lemma LongFirstWordGivesPattern(w: string, rest: string)
    requires |w| > 2
    requires forall i :: 0 <= i < |w| ==> !IsSpace(w[i]) && !IsMeta(w[i])
    ensures GenrePattern(w + " " + rest) != ""
  {
    EscapePlain(w);
    assert !IsMeta(' ');
    EscapeAppend(w, " ");
    assert Escape(" ") == " ";
    EscapeAppend(w + " ", rest);
    FirstPiece(w, Escape(rest));
    var ps := SplitSpaces(Escape(w + " " + rest));
    assert ps[0] in ps;
    PatternEmptyIff(w + " " + rest);
  }

  /** After initialization as written there is no exact match for the Russian fairy tale:
      a query for it can only be answered by the pattern query. */
  lemma AsWrittenMissesRussianFairyTale(store: seq<AiPrompt>, texts: seq<string>, base: string)
    requires |texts| == 22
    ensures ExactPrompts(InitializeDefaultPrompts(store, texts, base), FairyTale, Russian) == []
  {
    AsWrittenKeysMissRussianFairyTale();
    NoExactMatch(PromptsFor(DefaultKeysAsWritten(), texts, base), DefaultKeysAsWritten(), texts, base, RussianFairyTaleKey());
  }

  /** After the corrected initialization the exact query finds the Russian fairy-tale
      prompt, and only it, and returns it without consulting the pattern. */
  lemma RussianFairyTaleFoundExactly(store: seq<AiPrompt>, texts: seq<string>, base: string,
                                     matches: (string, string) -> bool)
    requires |texts| == 22
    ensures var init := InitializeCorrectedPrompts(store, texts, base);
            var r := ExactPrompts(init, FairyTale, Russian);
            && |r| > 0
            && (forall p :: p in r ==> p == init[1])
            && init[1].promptText == texts[1]
            && PromptsByGenreAndLanguage(init, FairyTale, Russian, matches) == r
  {
    var init := InitializeCorrectedPrompts(store, texts, base);
    KeysHoldRussianFairyTaleOnce();
    var r := ExactPrompts(init, FairyTale, Russian);
    assert init[1] in r;
    forall p | p in r
      ensures p == init[1]
    {
      var i :| 0 <= i < |init| && init[i] == p;
      assert DefaultKeys()[i] == RussianFairyTaleKey();
    }
  }

  /** Initialization forgets the old store: initializing twice is initializing once. */
  lemma InitializeIdempotent(store: seq<AiPrompt>, texts: seq<string>, base: string)
    requires |texts| == 22
    ensures InitializeDefaultPrompts(InitializeDefaultPrompts(store, texts, base), texts, base)
            == InitializeDefaultPrompts(store, texts, base)
  {
  }
}
