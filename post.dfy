/** The validators of the Post record: `validates_title`, `validates_content`,
    `validates_summary` and `validates_category`. */
module Post {
  import opened Wrappers
  import opened PyStr

  const TitleRequired := "Post title is required"
  const TitleNotClickbait :=
    "Post title must be clickbait-y and contain one of: 'Won't Believe', 'Secret', 'Top', or 'Guess'"
  const ContentRequired := "Post Content is required"
  const ContentTooShort := "Post Content should be atleast 250 characters"
  const SummaryRequired := "Post Summary is required"
  const SummaryTooLong := "Post Summary should be less than 250 characters"
  const CategoryRequired := "Post Category is required"
  const CategoryInvalid := "Invalid Post Category"

  /** The phrases of which a title must contain at least one. */
  const ClickbaitPhrases: seq<string> := ["Won't Believe", "Secret", "Top", "Guess"]

  /** The least length of a post's content and the greatest of its summary. */
  const ContentMinLength := 250
  const SummaryMaxLength := 250

  /** The categories a post may have. */
  const Categories: seq<string> := ["Fiction", "Non-Fiction"]

  /** A title that contains one of the four phrases, case and all. */
  ghost predicate IsClickbait(title: string) {
    || Occurs(title, "Won't Believe")
    || Occurs(title, "Secret")
    || Occurs(title, "Top")
    || Occurs(title, "Guess")
  }

  /** `validates_title`: a blank title is refused first; a title with none of
      the phrases is refused next. */
  function ValidateTitle(title: string): (r: Result<string>)
    ensures r.Ok? <==> !AllSpace(title) && IsClickbait(title)
    ensures r.Ok? ==> r.value == title
    ensures r == Err(TitleRequired) <==> AllSpace(title)
    ensures r == Err(TitleNotClickbait) <==> !AllSpace(title) && !IsClickbait(title)
  {
    if |title| == 0 || Strip(title) == "" then
      Err(TitleRequired)
    else if !ContainsAny(title, ClickbaitPhrases) then
      assert !Occurs(title, ClickbaitPhrases[0]) && !Occurs(title, ClickbaitPhrases[1]);
      assert !Occurs(title, ClickbaitPhrases[2]) && !Occurs(title, ClickbaitPhrases[3]);
      Err(TitleNotClickbait)
    else
      Ok(title)
  }

  /** `validates_content`: required, and at least 250 characters long; the
      content is not stripped, so whitespace counts towards the length. */
  function ValidateContent(content: string): (r: Result<string>)
    ensures r.Ok? <==> |content| >= ContentMinLength
    ensures r.Ok? ==> r.value == content
    ensures r == Err(ContentRequired) <==> content == []
    ensures r == Err(ContentTooShort) <==> 0 < |content| < ContentMinLength
  {
    if |content| == 0 then
      Err(ContentRequired)
    else if |content| < ContentMinLength then
      Err(ContentTooShort)
    else
      Ok(content)
  }

  /** `validates_summary`: required, and at most 250 characters long. */
  function ValidateSummary(summary: string): (r: Result<string>)
    ensures r.Ok? <==> 0 < |summary| <= SummaryMaxLength
    ensures r.Ok? ==> r.value == summary
    ensures r == Err(SummaryRequired) <==> summary == []
    ensures r == Err(SummaryTooLong) <==> |summary| > SummaryMaxLength
  {
    if |summary| == 0 then
      Err(SummaryRequired)
    else if |summary| > SummaryMaxLength then
      Err(SummaryTooLong)
    else
      Ok(summary)
  }

  /** `validates_category`: required, and exactly one of the two categories. */
  function ValidateCategory(category: string): (r: Result<string>)
    ensures r.Ok? <==> category == "Fiction" || category == "Non-Fiction"
    ensures r.Ok? ==> r.value == category
    ensures r == Err(CategoryRequired) <==> category == []
    ensures r == Err(CategoryInvalid) <==>
              category != [] && category != "Fiction" && category != "Non-Fiction"
  {
    if |category| == 0 then
      Err(CategoryRequired)
    else if category !in Categories then
      Err(CategoryInvalid)
    else
      Ok(category)
  }

  /** A phrase counts wherever it appears: an accepted title stays accepted
      with any text before or after it. */
  lemma {:induction false} TitleAcceptedInContext(title: string, pre: string, post: string)
    requires ValidateTitle(title).Ok?
    ensures ValidateTitle(pre + title + post).Ok?
  {
    var t := pre + title + post;
    var i :| 0 <= i < |title| && !IsSpace(title[i]);
    assert t[|pre| + i] == title[i];
    if Occurs(title, "Won't Believe") {
      OccursInContext(title, "Won't Believe", pre, post);
    } else if Occurs(title, "Secret") {
      OccursInContext(title, "Secret", pre, post);
    } else if Occurs(title, "Top") {
      OccursInContext(title, "Top", pre, post);
    } else {
      OccursInContext(title, "Guess", pre, post);
    }
  }

  /** Phrases are matched case-sensitively: a non-blank title holding none of
      the capitals 'W', 'S', 'T' and 'G' that begin the phrases is refused
      as not clickbait, whatever lower-case spelling of them it holds. */
  lemma {:induction false} TitleWithoutCapitalsRefused(title: string)
    requires !AllSpace(title)
    requires forall i :: 0 <= i < |title| ==> title[i] !in "WSTG"
    ensures ValidateTitle(title) == Err(TitleNotClickbait)
  {
    forall p, i | p in ClickbaitPhrases && OccursAt(title, p, i) ensures title[i] == p[0] {
      assert title[i..i + |p|][0] == title[i];
    }
    assert !Occurs(title, ClickbaitPhrases[0]) && !Occurs(title, ClickbaitPhrases[1]);
    assert !Occurs(title, ClickbaitPhrases[2]) && !Occurs(title, ClickbaitPhrases[3]);
  }

  /** A title with a phrase at its start is accepted; whitespace alone is not
      a title. */
  lemma TitleExamples()
    ensures ValidateTitle("Top 10 Secrets").Ok?
    ensures ValidateTitle(" \t ") == Err(TitleRequired)
  {
    assert OccursAt("Top 10 Secrets", "Top", 0);
  }

  /** Lower-case spellings of the phrases do not count. */
  lemma LowerCaseTitleExample()
    ensures ValidateTitle("top secret") == Err(TitleNotClickbait)
  {
    var t := "top secret";
    assert !IsSpace(t[0]);
    assert forall i :: 0 <= i < |t| ==> t[i] !in "WSTG";
    TitleWithoutCapitalsRefused(t);
  }

  /** The content boundary is inclusive at 250: 249 characters are refused
      and 250 accepted, even when all of them are spaces. */
  lemma ContentBoundary(content: string)
    ensures |content| == 249 ==> ValidateContent(content) == Err(ContentTooShort)
    ensures |content| == 250 ==> ValidateContent(content) == Ok(content)
  {}

  /** The summary boundary is inclusive at 250: 250 characters are accepted
      and 251 refused. */
  lemma SummaryBoundary(summary: string)
    ensures |summary| == 250 ==> ValidateSummary(summary) == Ok(summary)
    ensures |summary| == 251 ==> ValidateSummary(summary) == Err(SummaryTooLong)
  {}

  /** Categories are compared exactly: other spellings are invalid. */
  lemma CategoryExamples()
    ensures ValidateCategory("Fiction") == Ok("Fiction")
    ensures ValidateCategory("Non-Fiction") == Ok("Non-Fiction")
    ensures ValidateCategory("fiction") == Err(CategoryInvalid)
    ensures ValidateCategory("Non-fiction") == Err(CategoryInvalid)
    ensures ValidateCategory("") == Err(CategoryRequired)
  {}
}
