/**
 * One counter's card (components/CounterCard.tsx): the name editor, the
 * increment and decrement buttons and the delete button. Handlers return the
 * request they hand to the page (`onUpdate` / `onDelete`), or None.
 */
module CounterCard {
  import opened Wrappers
  import opened Counters
  import Text

  /** `onUpdate(counter.id, { count: counter.count + 1 })`. */
  function IncrementRequest(c: Counter): (r: Request)
    ensures r.UpdateRequest? && r.id == c.id
    ensures r.patch.id == None && r.patch.name == None && r.patch.count == Some(c.count + 1)
  {
    UpdateRequest(c.id, Patch(None, None, Some(c.count + 1)))
  }

  /** `onUpdate(counter.id, { count: counter.count - 1 })`; counts may go below zero. */
  function DecrementRequest(c: Counter): (r: Request)
    ensures r.UpdateRequest? && r.id == c.id
    ensures r.patch.id == None && r.patch.name == None && r.patch.count == Some(c.count - 1)
  {
    UpdateRequest(c.id, Patch(None, None, Some(c.count - 1)))
  }

  /** What saving the name buffer asks of the page: nothing for a blank buffer,
      otherwise an update carrying only the trimmed name. */
  function NameSaveRequest(c: Counter, buffer: string): (r: Option<Request>)
    ensures r == None <==> Text.AllWhitespace(buffer)
    ensures r.Some? ==> r.value == UpdateRequest(c.id, Patch(None, Some(Text.Trim(buffer)), None))
  {
    match Text.Commit(buffer)
    case None => None
    case Some(name) => Some(UpdateRequest(c.id, Patch(None, Some(name), None)))
  }

  /** Increment, let the page re-render the card with the updated counter, then decrement:
      the list is back where it started. */
  lemma IncrementThenDecrement(cs: seq<Counter>, i: nat)
    requires i < |cs|
    requires forall j :: 0 <= j < |cs| && j != i ==> cs[j].id != cs[i].id
    ensures var up := HandleRequest(Some(cs), IncrementRequest(cs[i]));
      up[i].count == cs[i].count + 1 && up[i].name == cs[i].name
      && HandleRequest(Some(up), DecrementRequest(up[i])) == cs
  {
    var up := HandleRequest(Some(cs), IncrementRequest(cs[i]));
    var down := HandleRequest(Some(up), DecrementRequest(up[i]));
    assert up[i] == cs[i].(count := cs[i].count + 1);
    forall j | 0 <= j < |cs| ensures down[j] == cs[j] {
      if j != i {
        assert up[j] == cs[j];
      }
    }
  }

  /** No amount of decrementing is refused: the count goes negative. */
  lemma DecrementBelowZero(c: Counter)
    requires c.count == 0
    ensures HandleRequest(Some([c]), DecrementRequest(c)) == [c.(count := -1)]
  {
  }

  class Card {
    var counter: Counter
    var isEditing: bool
    var editName: string
    var isDeleting: bool

    /** First render: not editing, the buffer holds the counter's name, not deleting. */
    constructor (counter: Counter)
      ensures this.counter == counter && !isEditing && editName == counter.name && !isDeleting
    {
      this.counter := counter;
      isEditing := false;
      editName := counter.name;
      isDeleting := false;
    }

    /** A re-render with a new `counter` prop keeps the card's own state. */
    method Rerender(c: Counter)
      modifies this
      ensures counter == c
      ensures isEditing == old(isEditing) && editName == old(editName) && isDeleting == old(isDeleting)
    {
      counter := c;
    }

    /** A click on the name starts editing. */
    method StartEditing()
      modifies this
      ensures isEditing && counter == old(counter) && editName == old(editName) && isDeleting == old(isDeleting)
    {
      isEditing := true;
    }

    /** Typing replaces the buffer. */
    method Type(text: string)
      modifies this
      ensures editName == text
      ensures counter == old(counter) && isEditing == old(isEditing) && isDeleting == old(isDeleting)
    {
      editName := text;
    }

    method Increment() returns (req: Request)
      ensures req == IncrementRequest(counter)
    {
      req := IncrementRequest(counter);
    }

    method Decrement() returns (req: Request)
      ensures req == DecrementRequest(counter)
    {
      req := DecrementRequest(counter);
    }

    /** `handleNameSave`: a non-blank buffer asks for only `name := trim(editName)`;
        a blank one asks nothing and puts the counter's name back in the buffer.
        Editing ends either way. */
    method HandleNameSave() returns (req: Option<Request>)
      modifies this
      ensures !isEditing && counter == old(counter) && isDeleting == old(isDeleting)
      ensures req == NameSaveRequest(counter, old(editName))
      ensures editName == if req == None then counter.name else old(editName)
    {
      req := NameSaveRequest(counter, editName);
      if req == None {
        editName := counter.name;
      }
      isEditing := false;
    }

    /** `handleNameKeyDown`: Enter saves, Escape discards the buffer and stops editing,
        any other key changes nothing. */
    method HandleNameKeyDown(key: string) returns (req: Option<Request>)
      modifies this
      ensures counter == old(counter) && isDeleting == old(isDeleting)
      ensures key == "Enter" ==>
        (!isEditing && req == NameSaveRequest(counter, old(editName))
         && editName == (if req == None then counter.name else old(editName)))
      ensures key == "Escape" ==> req == None && editName == counter.name && !isEditing
      ensures key != "Enter" && key != "Escape" ==>
        req == None && editName == old(editName) && isEditing == old(isEditing)
    {
      if key == "Enter" {
        req := HandleNameSave();
      } else if key == "Escape" {
        editName := counter.name;
        isEditing := false;
        req := None;
      } else {
        req := None;
      }
    }

    /** `handleDelete`: mark the card as deleting, then ask to delete exactly this counter
        (the 300 ms fade-out delay is not modelled). */
    method HandleDelete() returns (req: Request)
      modifies this
      ensures isDeleting && req == DeleteRequest(counter.id)
      ensures counter == old(counter) && isEditing == old(isEditing) && editName == old(editName)
    {
      isDeleting := true;
      req := DeleteRequest(counter.id);
    }

    /** A click on the delete button, which is disabled while the card is deleting:
        at most one delete request per card. */
    method ClickDelete() returns (req: Option<Request>)
      modifies this
      ensures isDeleting && counter == old(counter) && isEditing == old(isEditing) && editName == old(editName)
      ensures old(isDeleting) ==> req == None
      ensures !old(isDeleting) ==> req == Some(DeleteRequest(counter.id))
    {
      if isDeleting {
        req := None;
      } else {
        var d := HandleDelete();
        req := Some(d);
      }
    }
  }
}
