/** `StackExchangeService`: the catalogue of main sites, the lookup by slug,
    the two searches and the composition of the reply. */
module StackExchange {
  import opened Common
  import opened Utf16

  /** An entry of the static site list, as fetched from the sites endpoint
      (`name`, `site_url`, `api_site_parameter`, `audience`, `site_type`). */
  datatype RawSite = RawSite(name: string, siteUrl: string, apiSiteParameter: string, audience: string, siteType: string)

  /** A site the bot can search (`StackExchangeSite`). */
  datatype Site = Site(name: string, siteUrl: string, slug: string, audience: string)

  const MainSite: string := "main_site"

  function ToSite(raw: RawSite): Site
  {
    Site(raw.name, raw.siteUrl, raw.apiSiteParameter, raw.audience)
  }

  /** `sites`: the main sites of the raw list, in their order. */
  function Sites(raw: seq<RawSite>): (r: seq<Site>)
    ensures |r| <= |raw|
    ensures forall x :: x in raw && x.siteType == MainSite ==> ToSite(x) in r
    ensures forall s :: s in r ==> exists x :: x in raw && x.siteType == MainSite && ToSite(x) == s
  {
    if |raw| == 0 then []
    else
      var rest := Sites(raw[1..]);
      assert forall x :: x in raw[1..] ==> x in raw;
      assert forall x :: x in raw ==> x == raw[0] || x in raw[1..];
      if raw[0].siteType == MainSite then [ToSite(raw[0])] + rest else rest
  }

  /** The catalogue keeps the raw order: it is computed piece by piece. */
  lemma {:induction false} SitesOfConcat(a: seq<RawSite>, b: seq<RawSite>)
    ensures Sites(a + b) == Sites(a) + Sites(b)
    decreases |a|
  {
    if |a| == 0 {
      assert a + b == b;
    } else {
      assert (a + b)[1..] == a[1..] + b;
      SitesOfConcat(a[1..], b);
    }
  }

  /** A single raw entry contributes itself when it is a main site and nothing otherwise. */
  lemma SitesOfOne(x: RawSite)
    ensures Sites([x]) == if x.siteType == MainSite then [ToSite(x)] else []
  {
  }

  /** The position of the first site with the slug (`Array.prototype.find`). */
  function FindBySlug(sites: seq<Site>, slug: string): (r: Option<nat>)
    ensures r.Some? ==> r.value < |sites| && sites[r.value].slug == slug
    ensures r.Some? ==> forall j :: 0 <= j < r.value ==> sites[j].slug != slug
    ensures r.None? ==> forall j :: 0 <= j < |sites| ==> sites[j].slug != slug
  {
    if |sites| == 0 then None
    else if sites[0].slug == slug then Some(0)
    else
      match FindBySlug(sites[1..], slug)
      case None => None
      case Some(i) => Some(i + 1)
  }

  /** `getSiteBySlug`: the first site with the slug, or "Site not found!". */
  function GetSiteBySlug(sites: seq<Site>, slug: string): (r: Result<Site>)
    ensures r.Err? <==> forall s :: s in sites ==> s.slug != slug
    ensures r.Err? ==> r.error == SiteNotFound
    ensures r.Ok? ==> r.value.slug == slug
    ensures r.Ok? ==> exists i :: 0 <= i < |sites| && sites[i] == r.value && forall j :: 0 <= j < i ==> sites[j].slug != slug
  {
    match FindBySlug(sites, slug)
    case None => Err(SiteNotFound)
    case Some(i) => Ok(sites[i])
  }

  datatype Question = Question(id: string, title: string)

  datatype Answer = Answer(id: string, body: string)

  /** `GET /search/advanced`, most relevant first, only questions with
      answers; the query text is the stripped message, a JavaScript string. */
  datatype QuestionQuery = QuestionQuery(q: Units, site: string)

  /** `GET /questions/{id}/answers`, most voted first. */
  datatype AnswerQuery = AnswerQuery(questionId: string, site: string)

  datatype Request = SearchAdvanced(questionQuery: QuestionQuery) | QuestionAnswers(answerQuery: AnswerQuery)

  /** The site list, what the two endpoints answer (their `items`, or the
      failure), and the HTML-to-Markdown translator. */
  datatype SearchEnv = SearchEnv(
    sites: seq<Site>,
    questions: QuestionQuery -> Result<seq<Question>>,
    answers: AnswerQuery -> Result<seq<Answer>>,
    translate: string -> string)

  /** `searchRelevantQuestion`: the first item of the search. */
  function SearchRelevantQuestion(q: Units, site: Site, env: SearchEnv): (r: Result<Question>)
    ensures r.Ok? <==> env.questions(QuestionQuery(q, site.slug)).Ok? && |env.questions(QuestionQuery(q, site.slug)).value| > 0
    ensures r.Ok? ==> r.value == env.questions(QuestionQuery(q, site.slug)).value[0]
    ensures env.questions(QuestionQuery(q, site.slug)) == Ok([]) ==> r == Err(NoItems)
  {
    match env.questions(QuestionQuery(q, site.slug))
    case Err(e) => Err(e)
    case Ok(items) => if |items| == 0 then Err(NoItems) else Ok(items[0])
  }

  /** `searchBestAnswer`: the first item of the question's answers. */
  function SearchBestAnswer(questionId: string, site: Site, env: SearchEnv): (r: Result<Answer>)
    ensures r.Ok? <==> env.answers(AnswerQuery(questionId, site.slug)).Ok? && |env.answers(AnswerQuery(questionId, site.slug)).value| > 0
    ensures r.Ok? ==> r.value == env.answers(AnswerQuery(questionId, site.slug)).value[0]
    ensures env.answers(AnswerQuery(questionId, site.slug)) == Ok([]) ==> r == Err(NoItems)
  {
    match env.answers(AnswerQuery(questionId, site.slug))
    case Err(e) => Err(e)
    case Ok(items) => if |items| == 0 then Err(NoItems) else Ok(items[0])
  }

  function Header(siteName: string): string
  {
    "Below is what I found on " + siteName + ":"
  }

  function TitleLine(question: Question): string
  {
    "## Q: " + question.title
  }

  function SourceLine(site: Site, answer: Answer): string
  {
    "Source: " + site.siteUrl + "/a/" + answer.id
  }

  /** The answer body quoted and translated to Markdown. */
  function QuotedBody(answer: Answer, translate: string -> string): string
  {
    translate("<blockquote>" + answer.body + "</blockquote>")
  }

  /** The reply posted to the channel. Read line by line it is the header
      naming the site, the question title and the translated answer, each
      followed by a blank line, and the source link last. */
  function Reply(site: Site, question: Question, answer: Answer, translate: string -> string): (r: string)
    ensures Lines(r) == Lines(Header(site.name)) + [""] + Lines(TitleLine(question)) + [""]
      + Lines(QuotedBody(answer, translate)) + [""] + Lines(SourceLine(site, answer))
    ensures NoNewline(site.name) && NoNewline(question.title) && NoNewline(site.siteUrl) && NoNewline(answer.id) ==>
      Lines(r) == [Header(site.name), "", TitleLine(question), ""] + Lines(QuotedBody(answer, translate)) + ["", SourceLine(site, answer)]
  {
    var r := Header(site.name) + "\n\n" + TitleLine(question) + "\n\n" + QuotedBody(answer, translate) + "\n\n" + SourceLine(site, answer);
    BlankSeparatedParts(Header(site.name), TitleLine(question), QuotedBody(answer, translate), SourceLine(site, answer));
    if NoNewline(site.name) && NoNewline(question.title) && NoNewline(site.siteUrl) && NoNewline(answer.id) then
      HeaderIsOneLine(site.name);
      TitleIsOneLine(question);
      SourceIsOneLine(site, answer);
      BlankSeparatedLines(Header(site.name), TitleLine(question), QuotedBody(answer, translate), SourceLine(site, answer));
      r
    else
      r
  }

  /** How `searchAnswer` ends: it throws before returning an observable, or
      the observable emits a reply or an error. */
  datatype Call<+T> = Threw(error: Error) | Emitted(emission: Result<T>)

  /** The outcome of `searchAnswer` with the requests it issued, in order. */
  datatype Search = Search(call: Call<string>, requests: seq<Request>)

  /** `searchAnswer`: resolve the site, find the question, then its best answer. */
  function SearchAnswer(q: Units, slug: string, env: SearchEnv): (s: Search)
    ensures s.call.Threw? <==> forall site :: site in env.sites ==> site.slug != slug
    ensures s.call.Threw? ==> s == Search(Threw(SiteNotFound), [])
    ensures s.call.Emitted? ==> 1 <= |s.requests| <= 2 && s.requests[0] == SearchAdvanced(QuestionQuery(q, slug))
    ensures |s.requests| == 2 ==>
      var question := SearchRelevantQuestion(q, GetSiteBySlug(env.sites, slug).value, env);
      question.Ok? && s.requests[1] == QuestionAnswers(AnswerQuery(question.value.id, slug))
    ensures s.call.Emitted? && s.call.emission.Ok? ==>
      && |s.requests| == 2
      && var site := GetSiteBySlug(env.sites, slug).value;
      && var question := SearchRelevantQuestion(q, site, env);
      && question.Ok?
      && var answer := SearchBestAnswer(question.value.id, site, env);
      && answer.Ok?
      && s.call.emission.value == Reply(site, question.value, answer.value, env.translate)
    // with a known slug every step that succeeds leads to the next, and a
    // failing step's error is what the observable emits
    ensures s.call.Emitted? ==>
      var site := GetSiteBySlug(env.sites, slug).value;
      var question := SearchRelevantQuestion(q, site, env);
      && (question.Err? ==> s == Search(Emitted(Err(question.error)), [SearchAdvanced(QuestionQuery(q, slug))]))
      && (question.Ok? ==>
            var answer := SearchBestAnswer(question.value.id, site, env);
            && s.requests == [SearchAdvanced(QuestionQuery(q, slug)), QuestionAnswers(AnswerQuery(question.value.id, slug))]
            && (answer.Err? ==> s.call == Emitted(Err(answer.error)))
            && (answer.Ok? ==> s.call == Emitted(Ok(Reply(site, question.value, answer.value, env.translate)))))
  {
    match GetSiteBySlug(env.sites, slug)
    case Err(e) => Search(Threw(e), [])
    case Ok(site) =>
      var first := SearchAdvanced(QuestionQuery(q, site.slug));
      match SearchRelevantQuestion(q, site, env)
      case Err(e) => Search(Emitted(Err(e)), [first])
      case Ok(question) =>
        var second := QuestionAnswers(AnswerQuery(question.id, site.slug));
        match SearchBestAnswer(question.id, site, env)
        case Err(e) => Search(Emitted(Err(e)), [first, second])
        case Ok(answer) => Search(Emitted(Ok(Reply(site, question, answer, env.translate))), [first, second])
  }

  /** An unknown slug fails the same way whatever the endpoints would answer:
      nothing is asked of them. */
  lemma UnknownSlugAsksNothing(q: Units, slug: string, env: SearchEnv, env': SearchEnv)
    requires env.sites == env'.sites
    requires forall site :: site in env.sites ==> site.slug != slug
    ensures SearchAnswer(q, slug, env) == SearchAnswer(q, slug, env') == Search(Threw(SiteNotFound), [])
  {
  }

  /** An empty question list makes the observable emit an error after the
      one search. */
  lemma EmptyResultsEmitError(q: Units, site: Site, env: SearchEnv)
    requires site in env.sites
    requires GetSiteBySlug(env.sites, site.slug) == Ok(site)
    requires env.questions(QuestionQuery(q, site.slug)) == Ok([])
    ensures SearchAnswer(q, site.slug, env) == Search(Emitted(Err(NoItems)), [SearchAdvanced(QuestionQuery(q, site.slug))])
  {
  }

  /** A question without answers makes the observable emit an error after
      both requests. */
  lemma NoAnswerEmitsError(q: Units, site: Site, question: Question, env: SearchEnv)
    requires GetSiteBySlug(env.sites, site.slug) == Ok(site)
    requires SearchRelevantQuestion(q, site, env) == Ok(question)
    requires env.answers(AnswerQuery(question.id, site.slug)) == Ok([])
    ensures SearchAnswer(q, site.slug, env) ==
      Search(Emitted(Err(NoItems)), [SearchAdvanced(QuestionQuery(q, site.slug)), QuestionAnswers(AnswerQuery(question.id, site.slug))])
  {
  }

  /** The lines of a text, split at each newline. */
  function Lines(s: string): (r: seq<string>)
    ensures |r| >= 1
  {
    if |s| == 0 then [""]
    else
      var rest := Lines(s[1..]);
      if s[0] == '\n' then [""] + rest else [[s[0]] + rest[0]] + rest[1..]
  }

  predicate NoNewline(s: string)
  {
    forall i :: 0 <= i < |s| ==> s[i] != '\n'
  }

  /** A text without newlines is one line. */
  lemma {:induction false} LinesOfLine(s: string)
    requires NoNewline(s)
    ensures Lines(s) == [s]
  {
    if |s| > 0 {
      LinesOfLine(s[1..]);
      assert [s[0]] + s[1..] == s;
    }
  }

  /** Joining two texts with a newline joins their lines. */
  lemma {:induction false} LinesOfJoin(a: string, b: string)
    ensures Lines(a + "\n" + b) == Lines(a) + Lines(b)
    decreases |a|
  {
    if |a| == 0 {
      assert a + "\n" + b == "\n" + b;
      assert ("\n" + b)[1..] == b;
    } else {
      var s := a + "\n" + b;
      assert s[0] == a[0] && s[1..] == a[1..] + "\n" + b;
      LinesOfJoin(a[1..], b);
      var head, tail := Lines(a[1..]), Lines(b);
      if a[0] != '\n' {
        assert (head + tail)[0] == head[0];
        assert (head + tail)[1..] == head[1..] + tail;
      }
    }
  }

  /** Two newlines after a line: that line, then an empty one. */
  lemma LinesAfterBlankLine(a: string, b: string)
    ensures Lines(a + "\n\n" + b) == Lines(a) + [""] + Lines(b)
  {
    assert a + "\n\n" + b == a + "\n" + ("" + "\n" + b);
    LinesOfJoin("", b);
    LinesOfJoin(a, "" + "\n" + b);
  }

  /** A header, a title or a source line holds no newline when its parts hold none. */
  lemma NoNewlineConcat(a: string, b: string)
    requires NoNewline(a) && NoNewline(b)
    ensures NoNewline(a + b)
  {
    forall i | 0 <= i < |a + b| ensures (a + b)[i] != '\n' {
      if i >= |a| {
        assert (a + b)[i] == b[i - |a|];
      }
    }
  }

  /** The header is one line when the site name is. */
  lemma HeaderIsOneLine(siteName: string)
    requires NoNewline(siteName)
    ensures Lines(Header(siteName)) == [Header(siteName)]
  {
    NoNewlineConcat("Below is what I found on ", siteName);
    NoNewlineConcat("Below is what I found on " + siteName, ":");
    LinesOfLine(Header(siteName));
  }

  /** The title line is one line when the title is. */
  lemma TitleIsOneLine(question: Question)
    requires NoNewline(question.title)
    ensures Lines(TitleLine(question)) == [TitleLine(question)]
  {
    NoNewlineConcat("## Q: ", question.title);
    LinesOfLine(TitleLine(question));
  }

  /** The source line is one line when the site URL and the answer id are. */
  lemma SourceIsOneLine(site: Site, answer: Answer)
    requires NoNewline(site.siteUrl) && NoNewline(answer.id)
    ensures Lines(SourceLine(site, answer)) == [SourceLine(site, answer)]
  {
    NoNewlineConcat("Source: ", site.siteUrl);
    NoNewlineConcat("Source: " + site.siteUrl, "/a/");
    NoNewlineConcat("Source: " + site.siteUrl + "/a/", answer.id);
    LinesOfLine(SourceLine(site, answer));
  }

  /** Concatenation regrouped to the right. */
  lemma RegroupParts(h: string, t: string, body: string, src: string)
    ensures h + "\n\n" + t + "\n\n" + body + "\n\n" + src == h + "\n\n" + (t + "\n\n" + (body + "\n\n" + src))
  {
  }

  /** A one-line text, a blank line, then the rest. */
  lemma OneLineThenBlank(a: string, b: string)
    requires Lines(a) == [a]
    ensures Lines(a + "\n\n" + b) == [a, ""] + Lines(b)
  {
    LinesAfterBlankLine(a, b);
  }

  /** Regrouping the list of lines. */
  lemma RegroupLines(h: string, t: string, body: seq<string>, src: string)
    ensures [h, ""] + ([t, ""] + (body + ["", src])) == [h, "", t, ""] + body + ["", src]
  {
  }

  /** The lines of the right-grouped text, one blank line at a time. */
  lemma NestedLines(h: string, t: string, body: string, src: string)
    requires Lines(h) == [h] && Lines(t) == [t] && Lines(src) == [src]
    ensures Lines(h + "\n\n" + (t + "\n\n" + (body + "\n\n" + src))) ==
      [h, "", t, ""] + Lines(body) + ["", src]
  {
    var y := body + "\n\n" + src;
    var x := t + "\n\n" + y;
    LinesAfterBlankLine(body, src);
    assert Lines(y) == Lines(body) + ["", src];
    OneLineThenBlank(t, y);
    OneLineThenBlank(h, x);
    RegroupLines(h, t, Lines(body), src);
  }

  /** Three one-line parts and a body, separated by blank lines. */
  lemma BlankSeparatedLines(h: string, t: string, body: string, src: string)
    requires Lines(h) == [h] && Lines(t) == [t] && Lines(src) == [src]
    ensures Lines(h + "\n\n" + t + "\n\n" + body + "\n\n" + src) ==
      [h, "", t, ""] + Lines(body) + ["", src]
  {
    RegroupParts(h, t, body, src);
    NestedLines(h, t, body, src);
  }

  /** One blank line in front of a text whose lines are already known. */
  lemma BlankLineBefore(a: string, b: string, lb: seq<string>)
    requires Lines(b) == lb
    ensures Lines(a + "\n\n" + b) == Lines(a) + ([""] + lb)
  {
    LinesAfterBlankLine(a, b);
  }

  /** The right-grouped text of four parts, one blank line at a time. */
  lemma NestedParts(h: string, t: string, body: string, src: string)
    ensures Lines(h + "\n\n" + (t + "\n\n" + (body + "\n\n" + src))) ==
      Lines(h) + ([""] + (Lines(t) + ([""] + (Lines(body) + ([""] + Lines(src))))))
  {
    var y := body + "\n\n" + src;
    var ly := Lines(body) + ([""] + Lines(src));
    BlankLineBefore(body, src, Lines(src));
    var x := t + "\n\n" + y;
    var lx := Lines(t) + ([""] + ly);
    BlankLineBefore(t, y, ly);
    BlankLineBefore(h, x, lx);
  }

  /** Regrouping seven line lists. */
  lemma RegroupParts7(a: seq<string>, b: seq<string>, c: seq<string>, d: seq<string>, e: seq<string>, f: seq<string>, g: seq<string>)
    ensures a + (b + (c + (d + (e + (f + g))))) == a + b + c + d + e + f + g
  {
  }

  /** Four parts joined by blank lines: their lines, one blank line between
      each two. */
  lemma BlankSeparatedParts(h: string, t: string, body: string, src: string)
    ensures Lines(h + "\n\n" + t + "\n\n" + body + "\n\n" + src) ==
      Lines(h) + [""] + Lines(t) + [""] + Lines(body) + [""] + Lines(src)
  {
    RegroupParts(h, t, body, src);
    NestedParts(h, t, body, src);
    RegroupParts7(Lines(h), [""], Lines(t), [""], Lines(body), [""], Lines(src));
  }

  /** A reply always opens with the header naming its site. */
  lemma ReplyStartsWithHeader(site: Site, question: Question, answer: Answer, translate: string -> string)
    ensures Header(site.name) <= Reply(site, question, answer, translate)
  {
    var h := Header(site.name);
    var r := Reply(site, question, answer, translate);
    assert r == h + ("\n\n" + TitleLine(question) + "\n\n" + QuotedBody(answer, translate) + "\n\n" + SourceLine(site, answer));
  }
}
