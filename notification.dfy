/** services/notification.ts: the message sent to a parent when a student checks in. */
module Notification {
  import JsString
  import Storage

  /** The values substituted into the template. */
  datatype MessageData = MessageData(studentName: string, schoolName: string, date: string, time: string)

  /** A Telegram `sendMessage` request.  Sending is fire-and-forget: every failure is
      caught and logged, so nothing comes back to the caller. */
  datatype TelegramMessage = TelegramMessage(botToken: string, chatId: string, text: string)

  const StudentNameTag := "{student_name}"
  const SchoolNameTag := "{school_name}"
  const DateTag := "{date}"
  const TimeTag := "{time}"

  /** formatMessage: four `replace` calls in a fixed order, each rewriting the first
      occurrence of its placeholder in the output of the previous one. */
  function FormatMessage(template: string, data: MessageData): (r: string)
    ensures !JsString.Contains(template, StudentNameTag) && !JsString.Contains(template, SchoolNameTag)
            && !JsString.Contains(template, DateTag) && !JsString.Contains(template, TimeTag)
            ==> r == template
  {
    var withName := JsString.Replace(template, StudentNameTag, data.studentName);
    var withSchool := JsString.Replace(withName, SchoolNameTag, data.schoolName);
    var withDate := JsString.Replace(withSchool, DateTag, data.date);
    JsString.Replace(withDate, TimeTag, data.time)
  }

  /** The values hold no `{`, so no placeholder can appear in them. */
  predicate BraceFree(data: MessageData) {
    '{' !in data.studentName && '{' !in data.schoolName && '{' !in data.date && '{' !in data.time
  }

  /** Replace `tag` right after a brace-free prefix. */
  lemma ReplaceAfterBraceFree(a: string, tag: string, b: string, value: string)
    requires |tag| > 0 && tag[0] == '{' && '{' !in a
    ensures JsString.Replace(a + tag + b, tag, value) == a + value + b
  {
    JsString.NoOccurrenceInPrefix(a, tag, b, '{');
    JsString.ReplaceAfterPrefix(a, tag, b, value);
  }

  const Greeting := "Hello, this is to inform you that "
  const ArrivedAt := " has arrived at "
  const At := " at "
  const On := " on "

  lemma DefaultTemplateShape()
    ensures Storage.DefaultTemplate
            == Greeting + StudentNameTag + ArrivedAt + SchoolNameTag + At + TimeTag + On + DateTag + "."
    ensures '{' !in Greeting
  {
  }

  lemma PiecesBraceFree()
    ensures '{' !in Greeting && '{' !in ArrivedAt && '{' !in At && '{' !in On
  {
    DefaultTemplateShape();
  }

  /** Regrouping a concatenation around its first two pieces. */
  lemma GroupTail(a: string, b: string, c: string, d: string, e: string, f: string, g: string, h: string, i: string)
    ensures a + b + c + d + e + f + g + h + i == a + b + (c + d + e + f + g + h + i)
  {
  }

  lemma NameStep(n: string)
    ensures JsString.Replace(Storage.DefaultTemplate, StudentNameTag, n)
            == Greeting + n + ArrivedAt + SchoolNameTag + At + TimeTag + On + DateTag + "."
  {
    DefaultTemplateShape();
    var rest := ArrivedAt + SchoolNameTag + At + TimeTag + On + DateTag + ".";
    GroupTail(Greeting, StudentNameTag, ArrivedAt, SchoolNameTag, At, TimeTag, On, DateTag, ".");
    ReplaceAfterBraceFree(Greeting, StudentNameTag, rest, n);
    GroupTail(Greeting, n, ArrivedAt, SchoolNameTag, At, TimeTag, On, DateTag, ".");
  }

  /** Regrouping a concatenation of seven pieces around its first two. */
  lemma GroupSeven(a: string, b: string, c: string, d: string, e: string, f: string, g: string)
    ensures a + b + c + d + e + f + g == a + b + (c + d + e + f + g)
  {
  }

  /** Regrouping a concatenation of five pieces around its first two. */
  lemma GroupFive(a: string, b: string, c: string, d: string, e: string)
    ensures a + b + c + d + e == a + b + (c + d + e)
  {
  }

  lemma SchoolStep(p: string, s: string)
    requires '{' !in p
    ensures JsString.Replace(p + SchoolNameTag + At + TimeTag + On + DateTag + ".", SchoolNameTag, s)
            == p + s + At + TimeTag + On + DateTag + "."
  {
    var rest := At + TimeTag + On + DateTag + ".";
    GroupSeven(p, SchoolNameTag, At, TimeTag, On, DateTag, ".");
    ReplaceAfterBraceFree(p, SchoolNameTag, rest, s);
    GroupSeven(p, s, At, TimeTag, On, DateTag, ".");
  }

  /** A placeholder whose second character differs from `tag`'s cannot start `tag`. */
  lemma NoStartAcrossPlaceholder(x: string, q: string, y: string, tag: string)
    requires '{' !in x && '{' !in y && JsString.NoStart(q, tag) && tag[0] == '{'
    ensures JsString.NoStart(x + q + y, tag)
  {
    JsString.NoStartConcat(x, q, tag);
    JsString.NoStartConcat(x + q, y, tag);
  }

  lemma DateStep(x: string, d: string)
    requires '{' !in x
    ensures JsString.Replace(x + TimeTag + On + DateTag + ".", DateTag, d) == x + TimeTag + On + d + "."
  {
    assert JsString.NoStart(TimeTag, DateTag);
    NoStartAcrossPlaceholder(x, TimeTag, On, DateTag);
    JsString.ReplaceAfterNoStart(x + TimeTag + On, DateTag, ".", d);
  }

  lemma TimeStep(x: string, t: string, d: string)
    requires '{' !in x
    ensures JsString.Replace(x + TimeTag + On + d + ".", TimeTag, t) == x + t + On + d + "."
  {
    var rest := On + d + ".";
    GroupFive(x, TimeTag, On, d, ".");
    ReplaceAfterBraceFree(x, TimeTag, rest, t);
    GroupFive(x, t, On, d, ".");
  }

  /** The default template holds each placeholder once, so brace-free values are
      all substituted and nothing of the placeholders remains. */
  lemma DefaultTemplateFullySubstituted(data: MessageData)
    requires BraceFree(data)
    ensures FormatMessage(Storage.DefaultTemplate, data)
            == Greeting + data.studentName + ArrivedAt + data.schoolName + At + data.time + On + data.date + "."
  {
    var n, s, d, t := data.studentName, data.schoolName, data.date, data.time;
    PiecesBraceFree();
    NameStep(n);
    var p := Greeting + n + ArrivedAt;
    JsString.CharNotInConcat(Greeting, n, '{');
    JsString.CharNotInConcat(Greeting + n, ArrivedAt, '{');
    SchoolStep(p, s);
    var x := p + s + At;
    JsString.CharNotInConcat(p, s, '{');
    JsString.CharNotInConcat(p + s, At, '{');
    DateStep(x, d);
    TimeStep(x, t, d);
  }

  /** A brace-free text around two date placeholders holds no name or school placeholder. */
  lemma OnlyDateTags(a: string, b: string)
    requires '{' !in a && '{' !in b
    ensures !JsString.Contains(a + DateTag + b + DateTag, StudentNameTag)
    ensures !JsString.Contains(a + DateTag + b + DateTag, SchoolNameTag)
  {
    var template := a + DateTag + b + DateTag;
    assert JsString.NoStart(a, StudentNameTag) && JsString.NoStart(DateTag, StudentNameTag);
    assert JsString.NoStart(b, StudentNameTag);
    JsString.NoStartConcat(a, DateTag, StudentNameTag);
    JsString.NoStartConcat(a + DateTag, b, StudentNameTag);
    JsString.NoStartConcat(a + DateTag + b, DateTag, StudentNameTag);
    JsString.NoStartNotContains(template, StudentNameTag);

    assert JsString.NoStart(a, SchoolNameTag) && JsString.NoStart(DateTag, SchoolNameTag);
    assert JsString.NoStart(b, SchoolNameTag);
    JsString.NoStartConcat(a, DateTag, SchoolNameTag);
    JsString.NoStartConcat(a + DateTag, b, SchoolNameTag);
    JsString.NoStartConcat(a + DateTag + b, DateTag, SchoolNameTag);
    JsString.NoStartNotContains(template, SchoolNameTag);
  }

  /** Only the first occurrence of a placeholder is substituted; a second one stays. */
  lemma SecondOccurrenceStays(a: string, b: string, data: MessageData)
    requires '{' !in a && '{' !in b && BraceFree(data)
    ensures FormatMessage(a + DateTag + b + DateTag, data) == a + data.date + b + DateTag
  {
    var template := a + DateTag + b + DateTag;
    OnlyDateTags(a, b);
    assert template == a + DateTag + (b + DateTag);
    ReplaceAfterBraceFree(a, DateTag, b + DateTag, data.date);
    var t3 := a + data.date + (b + DateTag);

    JsString.CharNotInConcat(a, data.date, '{');
    JsString.CharNotInConcat(a + data.date, b, '{');
    var x := a + data.date + b;
    assert JsString.NoStart(x, TimeTag) && JsString.NoStart(DateTag, TimeTag);
    JsString.NoStartConcat(x, DateTag, TimeTag);
    assert t3 == x + DateTag;
    JsString.NoStartNotContains(t3, TimeTag);
  }

  /** Substitution is sequential: a placeholder inside an earlier value is itself
      replaced by a later step. */
  lemma SubstitutionIsSequential(school: string, date: string, time: string)
    requires '{' !in date
    ensures FormatMessage(StudentNameTag, MessageData(DateTag, school, date, time)) == date
  {
    JsString.ReplaceWhole(StudentNameTag, DateTag);
    assert JsString.NoStart(DateTag, SchoolNameTag);
    JsString.NoStartNotContains(DateTag, SchoolNameTag);
    JsString.ReplaceWhole(DateTag, date);
    JsString.NotContainsWithoutChar(date, TimeTag);
  }
}
