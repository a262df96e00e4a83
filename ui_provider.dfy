/** The provider of the search overlay's open flag and its global keyboard
    shortcut: "/" opens the overlay unless the focus is in a form field,
    Escape closes it. */
module UiProvider {
  import opened Wrappers
  import opened Text

  /** What one keydown does: the new open flag, and whether the browser's
      default action for the key is suppressed. */
  datatype KeyEffect = KeyEffect(open: bool, preventDefault: bool)

  /** `activeTag` is the lowercased tag name of the focused element; `None`
      when the document has no focused element. */
  predicate IsFormField(activeTag: Option<string>)
    ensures IsFormField(activeTag) <==>
              activeTag == Some("input") || activeTag == Some("textarea") || activeTag == Some("select")
  {
    activeTag.Some? && activeTag.value in {"input", "textarea", "select"}
  }

  /** The element's `tagName`, lowercased as the handler does. */
  function ActiveTag(tagName: Option<string>): (r: Option<string>)
    ensures r.None? <==> tagName.None?
    ensures r.Some? ==> |r.value| == |tagName.value| && r.value == Lower(tagName.value)
  {
    match tagName
    case None => None
    case Some(t) => Some(Lower(t))
  }

  /** `handleKeyDown` on the current open flag. */
  function KeyDown(open: bool, key: string, tagName: Option<string>): (e: KeyEffect)
    ensures e.preventDefault <==> key == "/" && !open && !IsFormField(ActiveTag(tagName))
    ensures e.open <==> e.preventDefault || (open && key != "Escape")
    ensures key == "Escape" ==> !e.open
  {
    if key == "/" && !open then
      if IsFormField(ActiveTag(tagName)) then KeyEffect(open, false)
      else KeyEffect(true, true)
    else if key == "Escape" then KeyEffect(false, false)
    else KeyEffect(open, false)
  }

  /** No key other than "/" and Escape changes anything. */
  lemma OtherKeysInert(open: bool, key: string, tagName: Option<string>)
    requires key != "/" && key != "Escape"
    ensures KeyDown(open, key, tagName) == KeyEffect(open, false)
  {
  }

  /** The form-field test ignores letter case: a tag name and its
      lower-cased spelling are treated alike. */
  lemma SlashIgnoresCase(open: bool, tag: string)
    ensures KeyDown(open, "/", Some(tag)) == KeyDown(open, "/", Some(Lower(tag)))
  {
    LowerIdempotent(tag);
  }

  /** "/" typed into a text field never opens the overlay and is not
      suppressed, so the slash reaches the field. */
  lemma SlashInFieldIgnored(open: bool, tag: string)
    requires Lower(tag) == "input" || Lower(tag) == "textarea" || Lower(tag) == "select"
    ensures KeyDown(open, "/", Some(tag)) == KeyEffect(open, false)
  {
  }

  /** Repeating a key has the effect of pressing it once. */
  lemma KeyDownIdempotent(open: bool, key: string, tagName: Option<string>)
    ensures var once := KeyDown(open, key, tagName).open;
            KeyDown(once, key, tagName).open == once
  {
  }

  /** The provider's state. */
  class Ui {
    var isSearchOpen: bool

    constructor ()
      ensures !isSearchOpen
    {
      isSearchOpen := false;
    }

    method ToggleSearch()
      modifies this
      ensures isSearchOpen == !old(isSearchOpen)
    {
      isSearchOpen := !isSearchOpen;
    }

    method OpenSearch()
      modifies this
      ensures isSearchOpen
    {
      isSearchOpen := true;
    }

    method CloseSearch()
      modifies this
      ensures !isSearchOpen
    {
      isSearchOpen := false;
    }

    /** The window's keydown listener. */
    method HandleKeyDown(key: string, tagName: Option<string>) returns (preventDefault: bool)
      modifies this
      ensures KeyEffect(isSearchOpen, preventDefault) == KeyDown(old(isSearchOpen), key, tagName)
    {
      preventDefault := false;
      if key == "/" && !isSearchOpen {
        var activeTag := ActiveTag(tagName);
        if IsFormField(activeTag) {
          return;
        }
        preventDefault := true;
        OpenSearch();
      }
      if key == "Escape" {
        CloseSearch();
      }
    }
  }

  /** What the context carries for its consumers. */
  datatype UiContext = UiContext(isSearchOpen: bool)

  /** `useUi()`: the context, or the error thrown outside a provider. */
  function UseUi(context: Option<UiContext>): (r: Result<UiContext>)
    ensures context.Some? <==> r.Ok?
    ensures r.Ok? ==> r.value == context.value
    ensures r.Err? ==> r.message == "useUi must be used within a UiProvider"
  {
    match context
    case None => Err("useUi must be used within a UiProvider")
    case Some(c) => Ok(c)
  }
}
