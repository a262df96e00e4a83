/** The two-step capture form: a URL step that fetches a title preview,
    then a details step whose submission runs `addLink`. */
module AddLinkForm {
  import opened Wrappers
  import opened Text
  import opened Schema
  import opened SafeUrl
  import opened Actions

  datatype Step = UrlStep | DetailsStep

  /** The values the category picker offers, in its order. */
  const CategoryOptions: seq<string> := ["General", "UI Library", "Tool", "Article", "Inspiration"]

  /** The picker's initial value is one of its options and is the stored
      default category. */
  lemma DefaultCategoryOffered()
    ensures DefaultCategory in CategoryOptions && CategoryOptions[0] == DefaultCategory
  {
  }

  /** `metadata?.title || ""`: the initial text of the Title field. */
  function TitleDefault(metadata: Option<string>): (t: string)
    ensures metadata.Some? ==> t == metadata.value
    ensures metadata.None? ==> t == ""
  {
    match metadata
    case Some(title) => title
    case None => ""
  }

  /** `disabled={!url || isFetching}` negated: whether the arrow button of
      the URL step can be pressed. */
  function NextEnabled(url: string, isFetching: bool): (b: bool)
    ensures b <==> url != "" && !isFetching
  {
    url != "" && !isFetching
  }

  /** What the details step submits: every field is in the form, as typed
      (possibly empty); `url` and `category` come from the form's state. */
  function DetailsForm(url: string, title: string, italicKeyword: string, contextNote: string, category: string): (f: FormData)
    ensures f.url == Some(url) && f.title == Some(title) && f.category == Some(category)
    ensures f.italicKeyword == Some(italicKeyword) && f.contextNote == Some(contextNote)
    ensures Present(f.title) <==> title != ""
    ensures Present(f.url) <==> url != ""
  {
    FormData(Some(url), Some(title), Some(italicKeyword), Some(contextNote), Some(category))
  }

  /** Submitting the details step: an empty title is refused; otherwise a
      signed-in caller with a working database either already has the URL
      or gets a new row whose category is the option picked and whose
      keyword and note are NULL when left empty. */
  lemma DetailsSubmission(rows: seq<Link>, userId: Option<string>, url: string, title: string,
                          italicKeyword: string, contextNote: string, category: string, storeFails: bool)
    requires category in CategoryOptions
    ensures var o := AddDecision(rows, userId, DetailsForm(url, title, italicKeyword, contextNote, category), storeFails);
            && (Present(userId) && (url == "" || title == "") ==> o.MissingField?)
            && (Present(userId) && url != "" && title != "" && !storeFails ==>
                  (o.Insert? || o.AlreadyCollected?))
            && (o.Insert? ==>
                  && o.row.title == title
                  && o.row.category == Given(Some(category))
                  && o.row.italicKeyword == Given(if italicKeyword == "" then None else Some(italicKeyword))
                  && o.row.contextNote == Given(if contextNote == "" then None else Some(contextNote)))
  {
    var i :| 0 <= i < |CategoryOptions| && CategoryOptions[i] == category;
  }

  // ---------------------------------------------------------------------
  // The success effect

  /** What the success effect leaves of `(isOpen, step)` after a save
      answered `result`: every successful save closes the form at the URL
      step. */
  function AfterSave(result: ActionState, isOpen: bool, step: Step): (r: (bool, Step))
    ensures result.success ==> r == (false, UrlStep)
    ensures !result.success ==> r == (isOpen, step)
  {
    if result.success then (false, UrlStep) else (isOpen, step)
  }

  /** The effect as written runs only when `state.success` changes, so a
      save that succeeds right after another successful save leaves the
      form as it was. */
  function AfterSaveAsWritten(previous: ActionState, result: ActionState, isOpen: bool, step: Step): (r: (bool, Step))
    ensures !previous.success && result.success ==> r == (false, UrlStep)
    ensures previous.success || !result.success ==> r == (isOpen, step)
  {
    if result.success != previous.success && result.success then (false, UrlStep) else (isOpen, step)
  }

  /** After a first save, the user reopens the form and saves a second link
      successfully: as written the form stays open on the details step. */
  lemma SecondSuccessStaysOpen()
    ensures var collected := AddAnswer(Insert(NewLink("u", "https://b.example", "B", Omitted, Omitted, Omitted, Omitted)));
            && collected.success
            && AfterSaveAsWritten(collected, collected, true, DetailsStep) == (true, DetailsStep)
            && AfterSave(collected, true, DetailsStep) == (false, UrlStep)
  {
  }

  /** Whenever the previous save did not succeed the effect as written and
      the corrected one agree. */
  lemma AsWrittenAgreesAfterFailure(previous: ActionState, result: ActionState, isOpen: bool, step: Step)
    requires !previous.success
    ensures AfterSaveAsWritten(previous, result, isOpen, step) == AfterSave(result, isOpen, step)
  {
  }

  // ---------------------------------------------------------------------
  // The component

  /** The component's state: `metadata` is the `{ title }` preview, `state`
      the last answer of the action. */
  class Capture {
    var isOpen: bool
    var url: string
    var metadata: Option<string>
    var isFetching: bool
    var step: Step
    var category: string
    var state: ActionState

    /** The picked category is always one of the options, and a preview,
        once set, holds a non-empty title. */
    ghost predicate Valid()
      reads this
    {
      category in CategoryOptions && (metadata.Some? ==> metadata.value != "")
    }

    constructor ()
      ensures Valid()
      ensures !isOpen && url == "" && metadata == None && !isFetching && step == UrlStep
      ensures category == "General" && state == ActionState(false, "")
    {
      isOpen := false;
      url := "";
      metadata := None;
      isFetching := false;
      step := UrlStep;
      category := "General";
      state := ActionState(false, "");
    }

    /** The "Capture a new link..." button of a signed-in user. */
    method Open()
      modifies this
      ensures isOpen
      ensures url == old(url) && metadata == old(metadata) && isFetching == old(isFetching)
      ensures step == old(step) && category == old(category) && state == old(state)
    {
      isOpen := true;
    }

    /** Typing into the URL field. */
    method EditUrl(value: string)
      modifies this
      ensures url == value
      ensures isOpen == old(isOpen) && metadata == old(metadata) && isFetching == old(isFetching)
      ensures step == old(step) && category == old(category) && state == old(state)
    {
      url := value;
    }

    /** Picking a category; the picker hands back only its options' values. */
    method ChooseCategory(value: string)
      requires Valid() && value in CategoryOptions
      modifies this
      ensures Valid() && category == value
      ensures isOpen == old(isOpen) && url == old(url) && metadata == old(metadata)
      ensures isFetching == old(isFetching) && step == old(step) && state == old(state)
    {
      category := value;
    }

    /** The first half of `handleUrlSubmit`, run by the arrow button, which
        is disabled while a fetch is running: nothing for an empty URL;
        otherwise the busy flag is raised, which disables the button until
        the fetch ends, and the URL to fetch is returned. */
    method BeginUrlSubmit() returns (request: Option<string>)
      requires !isFetching
      modifies this
      ensures old(url) == "" <==> request.None?
      ensures request.Some? ==> request.value == url && isFetching && !NextEnabled(url, isFetching)
      ensures request.None? ==> isFetching == old(isFetching)
      ensures isOpen == old(isOpen) && url == old(url) && metadata == old(metadata)
      ensures step == old(step) && category == old(category) && state == old(state)
    {
      if url == "" {
        return None;
      }
      isFetching := true;
      request := Some(url);
    }

    /** The second half, once `fetchMetadata` answered `meta`: a preview
        with a non-empty title replaces the old one, any other answer keeps
        the old preview; the busy flag drops and the details step shows. */
    method FinishUrlSubmit(meta: Option<Metadata>)
      requires Valid()
      modifies this
      ensures Valid()
      ensures meta.Some? && meta.value.title != "" ==> metadata == Some(meta.value.title)
      ensures !(meta.Some? && meta.value.title != "") ==> metadata == old(metadata)
      ensures !isFetching && step == DetailsStep
      ensures NextEnabled(url, isFetching) <==> url != ""
      ensures isOpen == old(isOpen) && url == old(url) && category == old(category) && state == old(state)
    {
      if meta.Some? && meta.value.title != "" {
        metadata := Some(meta.value.title);
      }
      isFetching := false;
      step := DetailsStep;
    }

    /** `handleUrlSubmit` run to the end with the page `body` fetched for
        the URL: the Title field then starts from the page's title when it
        has a non-empty one, and from the previous preview otherwise. */
    method SubmitUrl(body: Option<string>, parse: Parser)
      requires Valid() && !isFetching
      modifies this
      ensures Valid()
      ensures !isFetching && (NextEnabled(url, isFetching) <==> url != "")
      ensures isOpen == old(isOpen) && url == old(url) && category == old(category) && state == old(state)
      ensures url == "" ==>
                && isFetching == old(isFetching) && step == old(step) && metadata == old(metadata)
      ensures url != "" ==>
                && !isFetching && step == DetailsStep
                && var meta := FetchMetadata(url, body, parse);
                   TitleDefault(metadata) == if meta.value.title != "" then meta.value.title else TitleDefault(old(metadata))
    {
      var request := BeginUrlSubmit();
      if request.Some? {
        var meta := FetchMetadata(request.value, body, parse);
        FinishUrlSubmit(meta);
      }
    }

    /** The Cancel button. */
    method Cancel()
      modifies this
      ensures !isOpen && step == UrlStep
      ensures url == old(url) && metadata == old(metadata) && isFetching == old(isFetching)
      ensures category == old(category) && state == old(state)
    {
      isOpen := false;
      step := UrlStep;
    }

    /** "Save to Vault": `addLink` on the details the user typed, then the
        success effect, which runs only when `state.success` changed. Only
        the open flag and the step are reset; the URL, the preview and the
        category stay for the next capture. */
    method Save(store: LinkStore, userId: Option<string>, title: string, italicKeyword: string,
                contextNote: string, storeFails: bool, now: Timestamp) returns (result: ActionState)
      requires store.Valid()
      modifies this, store
      ensures store.Valid()
      ensures var o := AddDecision(old(store.rows), userId, DetailsForm(url, title, italicKeyword, contextNote, category), storeFails);
              && result == AddAnswer(o)
              && store.rows == AfterAdd(old(store.rows), o, old(store.nextId), now)
      ensures state == result
      ensures (isOpen, step) == AfterSaveAsWritten(old(state), result, old(isOpen), old(step))
      ensures !old(state).success ==> (isOpen, step) == AfterSave(result, old(isOpen), old(step))
      ensures url == old(url) && metadata == old(metadata) && isFetching == old(isFetching)
      ensures category == old(category)
    {
      var form := DetailsForm(url, title, italicKeyword, contextNote, category);
      result := store.AddLink(userId, form, storeFails, now);
      var after := AfterSaveAsWritten(state, result, isOpen, step);
      if !state.success {
        AsWrittenAgreesAfterFailure(state, result, isOpen, step);
      }
      state := result;
      isOpen := after.0;
      step := after.1;
    }
  }
}
