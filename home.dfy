/**
 * The home page's state (app/page.tsx): the bound counter list and title,
 * and the title editor. Every list operation computes a whole new list with
 * the functions of `Counters` and writes it with `setCounters`; `writes`
 * counts those writes.
 */
module Home {
  import opened Wrappers
  import opened Counters
  import Text

  /** `value || fallback` for an optional string: null and "" both fall back. */
  function OrDefault(s: Option<string>, fallback: string): (r: string)
    ensures s.Some? && s.value != "" ==> r == s.value
    ensures s == None || s == Some("") ==> r == fallback
  {
    if s.Some? && s.value != "" then s.value else fallback
  }

  /** The title and the edit buffer after a save. */
  datatype TitleEdit = TitleEdit(title: Option<string>, buffer: string)

  /** The title-save rule: a blank buffer keeps the title and puts the shown title
      (or "Titulo") back in the buffer; any other buffer becomes the trimmed title. */
  function SaveTitle(title: Option<string>, buffer: string): (r: TitleEdit)
    ensures Text.AllWhitespace(buffer) ==> r == TitleEdit(title, OrDefault(title, "Titulo"))
    ensures !Text.AllWhitespace(buffer) ==> r == TitleEdit(Some(Text.Trim(buffer)), buffer)
    ensures r.title.Some? && r.title != title ==> r.title.value != "" && r.title.value == Text.Trim(buffer)
  {
    match Text.Commit(buffer)
    case None => TitleEdit(title, OrDefault(title, "Titulo"))
    case Some(t) => TitleEdit(Some(t), buffer)
  }

  class Page {
    var counters: Option<seq<Counter>>
    var title: Option<string>
    var isEditingTitle: bool
    var editTitleValue: string
    var writes: nat

    /** After loading: the bound values, not editing, an empty title buffer. */
    constructor (counters: Option<seq<Counter>>, title: Option<string>)
      ensures this.counters == counters && this.title == title
      ensures !isEditingTitle && editTitleValue == "" && writes == 0
    {
      this.counters := counters;
      this.title := title;
      isEditingTitle := false;
      editTitleValue := "";
      writes := 0;
    }

    /** `setCounters`: one whole-list write. */
    method SetCounters(cs: seq<Counter>)
      modifies this
      ensures counters == Some(cs) && writes == old(writes) + 1
      ensures title == old(title) && isEditingTitle == old(isEditingTitle) && editTitleValue == old(editTitleValue)
    {
      counters := Some(cs);
      writes := writes + 1;
    }

    method AddCounter(freshId: string)
      modifies this
      ensures counters == Some(Counters.AddCounter(old(counters), freshId)) && writes == old(writes) + 1
      ensures title == old(title) && isEditingTitle == old(isEditingTitle) && editTitleValue == old(editTitleValue)
    {
      SetCounters(Counters.AddCounter(counters, freshId));
    }

    /** Written even when the id is unknown. */
    method UpdateCounter(id: string, updates: Patch)
      modifies this
      ensures counters == Some(Counters.UpdateCounter(old(counters), id, updates)) && writes == old(writes) + 1
      ensures title == old(title) && isEditingTitle == old(isEditingTitle) && editTitleValue == old(editTitleValue)
    {
      SetCounters(Counters.UpdateCounter(counters, id, updates));
    }

    method DeleteCounter(id: string)
      modifies this
      ensures counters == Some(Counters.DeleteCounter(old(counters), id)) && writes == old(writes) + 1
      ensures title == old(title) && isEditingTitle == old(isEditingTitle) && editTitleValue == old(editTitleValue)
    {
      SetCounters(Counters.DeleteCounter(counters, id));
    }

    /** A drag that ends on the dragged item itself, or outside the list, writes nothing;
        any other drag writes the reordered list. */
    method HandleDragEnd(activeId: string, overId: Option<string>)
      modifies this
      ensures var moved := HandleDragEndGuarded(old(counters), activeId, overId);
        (moved.None? ==> counters == old(counters) && writes == old(writes))
        && (moved.Some? ==> counters == moved && writes == old(writes) + 1)
      ensures title == old(title) && isEditingTitle == old(isEditingTitle) && editTitleValue == old(editTitleValue)
    {
      var moved := HandleDragEndGuarded(counters, activeId, overId);
      if moved.Some? {
        SetCounters(moved.value);
      }
    }

    method ResetAllCounts()
      modifies this
      ensures counters == Some(Counters.ResetAllCounts(old(counters))) && writes == old(writes) + 1
      ensures title == old(title) && isEditingTitle == old(isEditingTitle) && editTitleValue == old(editTitleValue)
    {
      SetCounters(Counters.ResetAllCounts(counters));
    }

    method RemoveAllCounters()
      modifies this
      ensures counters == Some([]) && writes == old(writes) + 1
      ensures title == old(title) && isEditingTitle == old(isEditingTitle) && editTitleValue == old(editTitleValue)
    {
      SetCounters([]);
    }

    /** A card's request, routed to `updateCounter` or `deleteCounter`. */
    method HandleRequest(req: Request)
      modifies this
      ensures counters == Some(Counters.HandleRequest(old(counters), req)) && writes == old(writes) + 1
      ensures title == old(title) && isEditingTitle == old(isEditingTitle) && editTitleValue == old(editTitleValue)
    {
      match req
      case UpdateRequest(id, patch) => UpdateCounter(id, patch);
      case DeleteRequest(id) => DeleteCounter(id);
    }

    /** `handleTitleEdit`: load the buffer with the title (or "Titulo") and start editing. */
    method HandleTitleEdit()
      modifies this
      ensures isEditingTitle && editTitleValue == OrDefault(title, "Titulo")
      ensures counters == old(counters) && title == old(title) && writes == old(writes)
    {
      editTitleValue := OrDefault(title, "Titulo");
      isEditingTitle := true;
    }

    /** `handleTitleSave`: a blank buffer keeps the title and restores the buffer;
        any other buffer stores its trimmed text. Editing ends either way. */
    method HandleTitleSave()
      modifies this
      ensures !isEditingTitle && counters == old(counters) && writes == old(writes)
      ensures TitleEdit(title, editTitleValue) == SaveTitle(old(title), old(editTitleValue))
    {
      var saved := SaveTitle(title, editTitleValue);
      title, editTitleValue := saved.title, saved.buffer;
      isEditingTitle := false;
    }

    /** `handleTitleKeyDown`: Enter saves; Escape restores the buffer (falling back to
        "Counter X", not "Titulo") and stops editing; other keys change nothing. */
    method HandleTitleKeyDown(key: string)
      modifies this
      ensures counters == old(counters) && writes == old(writes)
      ensures key == "Enter" ==>
        !isEditingTitle && TitleEdit(title, editTitleValue) == SaveTitle(old(title), old(editTitleValue))
      ensures key == "Escape" ==>
        !isEditingTitle && title == old(title) && editTitleValue == OrDefault(old(title), "Counter X")
      ensures key != "Enter" && key != "Escape" ==>
        isEditingTitle == old(isEditingTitle) && title == old(title) && editTitleValue == old(editTitleValue)
    {
      if key == "Enter" {
        HandleTitleSave();
      } else if key == "Escape" {
        editTitleValue := OrDefault(title, "Counter X");
        isEditingTitle := false;
      }
    }
  }
}
