/** services/speed-reading-service.js, generateEducationalContent: the choice of the
    prompt that asks for a reading text. Each of eight genres has a Kyrgyz and a Russian
    template; both embed the shared requirements with their first "Текст" replaced by the
    genre's own word. The requirements text, already filled with the word count, question
    count and class level, is the parameter `requirements`; the fixed introductory lines of
    each template are not modelled, so a prompt is identified by its genre, its language and
    the requirements it embeds. */
module ContentPrompts {
  import opened Wrappers

  /** A genre as the client names it, with the word that replaces "Текст" in each language. */
  datatype Genre = Genre(name: string, kyrgyzWord: string, russianWord: string)

  const Kyrgyz: string := "Кыргыз"
  const Placeholder: string := "Текст"
  const UnknownGenreReply: string := "Educational content generated successfully"

  /** The genres in the order the branches test them. */
  function Genres(): (gs: seq<Genre>)
    ensures |gs| == 8
  {
    [ Genre("Жомок (Фантазияга негизделген кызыктуу окуялар.)", "Жомок", "Сказка"),
      Genre("Ыр (Рифмалуу жана ритмдүү текст.)", "Ыр", "Стихотворение"),
      Genre("Аңгеме (Кыска, түшүнүктүү окуя.)", "Аңгеме", "Рассказ"),
      Genre("Эссе (Жеке ойлор жана сезимдер жазылган текст.)", "Эссе", "Эссе"),
      Genre("Сүреттөмө текст (Бир нерсени сүрөттөп берүүчү жазуу.)", "Сүреттөмө текст", "Описательный текст"),
      Genre("Күнүмдүк жашоо баяны (Жашоодон алынган кыска окуялар.)", "Күнүмдүк жашоо баяны", "Жизненная история"),
      Genre("Кат (Досторго же үй-бүлөгө арналган кыска билдирүүлөр.)", "Кат", "Письмо"),
      Genre("Илимий текстер (Илим-билимге байланыштуу маалыматтык текстер.)", "Илимий текст", "Научный текст") ]
  }

  /** The first genre whose name equals the request's. */
  function FindGenre(gs: seq<Genre>, name: string): (r: Option<nat>)
    ensures r.Some? ==> r.value < |gs| && gs[r.value].name == name
    ensures r.Some? ==> forall j :: 0 <= j < r.value ==> gs[j].name != name
    ensures r.None? <==> forall j :: 0 <= j < |gs| ==> gs[j].name != name
  {
    if |gs| == 0 then None
    else if gs[0].name == name then Some(0)
    else match FindGenre(gs[1..], name)
      case None => None
      case Some(i) => Some(i + 1)
  }

  // ---------------------------------------------------------------- String.prototype.replace

  /** `pat` occurs in `s` at position i. */
  predicate OccursAt(s: string, pat: string, i: nat) {
    i + |pat| <= |s| && s[i..i + |pat|] == pat
  }

  /** The first position at or after `from` where `pat` occurs. */
  function FirstOccurrence(s: string, pat: string, from: nat): (r: Option<nat>)
    requires from <= |s|
    ensures r.Some? ==> from <= r.value && OccursAt(s, pat, r.value)
    ensures r.Some? ==> forall j :: from <= j < r.value ==> !OccursAt(s, pat, j)
    ensures r.None? <==> forall j :: from <= j <= |s| ==> !OccursAt(s, pat, j)
    decreases |s| - from
  {
    if OccursAt(s, pat, from) then Some(from)
    else if from == |s| then None
    else FirstOccurrence(s, pat, from + 1)
  }

  /** `s.replace(pat, rep)` with a string pattern: only the first occurrence is replaced,
      and a string without one is returned as it is. None of the replacement words holds a
      `$`, so the replacement's special patterns play no part. */
  function ReplaceFirst(s: string, pat: string, rep: string): (r: string)
    ensures FirstOccurrence(s, pat, 0).None? ==> r == s
    ensures FirstOccurrence(s, pat, 0).Some? ==>
      var i := FirstOccurrence(s, pat, 0).value;
      r == s[..i] + rep + s[i + |pat|..]
  {
    match FirstOccurrence(s, pat, 0)
    case None => s
    case Some(i) => s[..i] + rep + s[i + |pat|..]
  }

  // ---------------------------------------------------------------- the selection

  datatype Content =
    | Prompt(genre: Genre, kyrgyz: bool, requirements: string)
    | Reply(text: string)

  function EducationalContent(genre: string, language: string, requirements: string): (c: Content)
    ensures FindGenre(Genres(), genre).None? <==> c == Reply(UnknownGenreReply)
    ensures c.Prompt? ==> c.genre.name == genre && c.genre in Genres()
    ensures c.Prompt? ==> (c.kyrgyz <==> language == Kyrgyz)
    ensures c.Prompt? ==>
      c.requirements == ReplaceFirst(requirements, Placeholder, if c.kyrgyz then c.genre.kyrgyzWord else c.genre.russianWord)
  {
    match FindGenre(Genres(), genre)
    case None => Reply(UnknownGenreReply)
    case Some(i) =>
      var g := Genres()[i];
      if language == Kyrgyz then Prompt(g, true, ReplaceFirst(requirements, Placeholder, g.kyrgyzWord))
      else Prompt(g, false, ReplaceFirst(requirements, Placeholder, g.russianWord))
  }

  // ---------------------------------------------------------------- properties

  /** Every occurrence after the first survives the replacement, shifted by the difference
      in length between the word and the placeholder. */
  lemma LaterOccurrencesKept(s: string, pat: string, rep: string, k: nat)
    requires FirstOccurrence(s, pat, 0).Some?
    requires FirstOccurrence(s, pat, 0).value + |pat| <= k && OccursAt(s, pat, k)
    ensures OccursAt(ReplaceFirst(s, pat, rep), pat, k - |pat| + |rep|)
  {
    var i := FirstOccurrence(s, pat, 0).value;
    var head := s[..i] + rep;
    var tail := s[i + |pat|..];
    var m := k - i - |pat|;
    SliceOfTail(head, tail, m, m + |pat|);
    assert tail[m..m + |pat|] == s[k..k + |pat|];
  }

  lemma SliceOfTail(x: string, y: string, m: nat, n: nat)
    requires m <= n <= |y|
    ensures (x + y)[|x| + m..|x| + n] == y[m..n]
  {
  }

  /** The text before the first occurrence is untouched and the word follows it. */
  lemma PrefixKept(s: string, pat: string, rep: string)
    requires FirstOccurrence(s, pat, 0).Some?
    ensures var i := FirstOccurrence(s, pat, 0).value;
            var r := ReplaceFirst(s, pat, rep);
            |r| == |s| - |pat| + |rep| && r[..i] == s[..i] && r[i..i + |rep|] == rep
  {
  }

  /** The two languages of one genre differ only in the word substituted. */
  lemma LanguagesShareTemplate(genre: string, requirements: string, other: string)
    requires FindGenre(Genres(), genre).Some? && other != Kyrgyz
    ensures var k := EducationalContent(genre, Kyrgyz, requirements);
            var o := EducationalContent(genre, other, requirements);
            && k.Prompt? && o.Prompt? && k.genre == o.genre && k.kyrgyz && !o.kyrgyz
            && k.requirements == ReplaceFirst(requirements, Placeholder, k.genre.kyrgyzWord)
            && o.requirements == ReplaceFirst(requirements, Placeholder, k.genre.russianWord)
  {
  }
}
