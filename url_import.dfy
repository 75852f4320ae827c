/**
  The server action that imports a recipe's ingredients from a web page: the form fields
  are checked, then the URL, then the extractor is asked, and the first check that fails
  decides the reply.
 */
module UrlImport {
  import opened Wrappers

  /** What the extractor did for a URL: it returned a result, whose ingredient list may be
      missing, or it threw. */
  datatype Extraction = Extracted(ingredients: Option<seq<string>>) | ExtractorThrew

  /** The data of a successful import. */
  datatype ImportedIngredients = ImportedIngredients(name: string, ingredients: seq<string>)

  /** The action's reply. */
  datatype ActionResult = Success(data: ImportedIngredients) | Failure(error: string)

  const RequiredMessage := "URL and recipe name are required."
  const InvalidUrlMessage := "Please enter a valid URL."
  const NoIngredientsMessage := "Could not find any ingredients at that URL."
  const ExtractionFailedMessage := "Failed to extract ingredients. The URL might be invalid or the page structure unsupported."

  /** A form field that is present and not the empty string. */
  predicate IsFilled(field: Option<string>) {
    field.Some? && field.value != ""
  }

  /** Whether the extractor's result holds at least one ingredient. */
  predicate FoundIngredients(e: Extraction) {
    e.Extracted? && e.ingredients.Some? && |e.ingredients.value| > 0
  }

  /** The action, with the URL parser (`new URL`) and the extractor as parameters. */
  function GetIngredientsFromUrl(url: Option<string>, name: Option<string>,
                                 urlParses: string -> bool, extract: string -> Extraction): (r: ActionResult)
    ensures !IsFilled(url) || !IsFilled(name) ==> r == Failure(RequiredMessage)
    ensures IsFilled(url) && IsFilled(name) && !urlParses(url.value) ==> r == Failure(InvalidUrlMessage)
    ensures r.Success? <==> IsFilled(url) && IsFilled(name) && urlParses(url.value) && FoundIngredients(extract(url.value))
    ensures r.Success? ==> r.data == ImportedIngredients(name.value, extract(url.value).ingredients.value)
    ensures (IsFilled(url) && IsFilled(name) && urlParses(url.value) && extract(url.value).ExtractorThrew?)
            ==> r == Failure(ExtractionFailedMessage)
    ensures (IsFilled(url) && IsFilled(name) && urlParses(url.value) && extract(url.value).Extracted?
             && !FoundIngredients(extract(url.value)))
            ==> r == Failure(NoIngredientsMessage)
  {
    if !IsFilled(url) || !IsFilled(name) then
      Failure(RequiredMessage)
    else if !urlParses(url.value) then
      Failure(InvalidUrlMessage)
    else
      match extract(url.value)
      case ExtractorThrew => Failure(ExtractionFailedMessage)
      case Extracted(ingredients) =>
        if ingredients.Some? && |ingredients.value| > 0 then
          Success(ImportedIngredients(name.value, ingredients.value))
        else
          Failure(NoIngredientsMessage)
  }

  /** Missing fields are reported before the URL is looked at or the extractor is asked:
      the reply is the same whatever the URL parser and the extractor would do. */
  lemma MissingFieldsDecideFirst(url: Option<string>, name: Option<string>,
                                 urlParses: string -> bool, extract: string -> Extraction,
                                 urlParses': string -> bool, extract': string -> Extraction)
    requires !IsFilled(url) || !IsFilled(name)
    ensures GetIngredientsFromUrl(url, name, urlParses, extract) == GetIngredientsFromUrl(url, name, urlParses', extract')
  {
  }

  /** A URL the parser rejects is reported without asking the extractor: the reply is the
      same whatever the extractor would do. */
  lemma InvalidUrlSkipsExtractor(url: Option<string>, name: Option<string>,
                                 urlParses: string -> bool, extract: string -> Extraction,
                                 extract': string -> Extraction)
    requires IsFilled(url) && IsFilled(name) && !urlParses(url.value)
    ensures GetIngredientsFromUrl(url, name, urlParses, extract) == GetIngredientsFromUrl(url, name, urlParses, extract')
  {
  }

  /** The reply depends on the URL parser and on the extractor only at the URL the form
      carries. */
  lemma OnlyTheFormUrlMatters(url: Option<string>, name: Option<string>,
                              urlParses: string -> bool, extract: string -> Extraction,
                              urlParses': string -> bool, extract': string -> Extraction)
    requires url.Some? ==> urlParses(url.value) == urlParses'(url.value) && extract(url.value) == extract'(url.value)
    ensures GetIngredientsFromUrl(url, name, urlParses, extract) == GetIngredientsFromUrl(url, name, urlParses', extract')
  {
  }

  /** Every failure carries one of the four messages. */
  lemma FailureMessages(url: Option<string>, name: Option<string>,
                        urlParses: string -> bool, extract: string -> Extraction)
    ensures var r := GetIngredientsFromUrl(url, name, urlParses, extract);
            r.Failure? ==> r.error in {RequiredMessage, InvalidUrlMessage, NoIngredientsMessage, ExtractionFailedMessage}
  {
  }
}
