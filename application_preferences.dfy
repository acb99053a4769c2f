/**
 * The application-wide preferences of the plugin: the New Relic account id,
 * held in a State record that IntelliJ persists, behind a component that
 * hands the record out and takes a new one in. The API key lives in the
 * IDE's password store and is not part of this model.
 */
module ApplicationPreferences {
  import opened Wrappers
  import opened JavaText

  /** ApplicationPreferencesState.State: the record IntelliJ persists. */
  class State {
    var newRelicAccountId: Option<string>

    predicate Valid()
      reads this
    {
      newRelicAccountId.Some? ==> IsTrimmed(newRelicAccountId.value)
    }

    constructor()
      ensures newRelicAccountId == None
      ensures Valid()
    {
      newRelicAccountId := None;
    }

    /** The account id, "" when it was never set. */
    function GetNewRelicAccountId(): (id: string)
      reads this
      requires Valid()
      ensures IsTrimmed(id)
      ensures newRelicAccountId.None? ==> id == ""
      ensures newRelicAccountId.Some? ==> id == newRelicAccountId.value
    {
      if newRelicAccountId.None? then "" else newRelicAccountId.value
    }

    method SetNewRelicAccountId(id: string)
      modifies this
      ensures newRelicAccountId == Some(Trim(id))
      ensures Valid()
    {
      newRelicAccountId := Some(Trim(id));
    }
  }

  /** ApplicationPreferencesState: the component that owns the current State. */
  class ApplicationPreferencesState {
    var myState: State

    predicate Valid()
      reads this, myState
    {
      myState.Valid()
    }

    constructor()
      ensures fresh(myState) && myState.newRelicAccountId == None
      ensures Valid()
    {
      myState := new State();
    }

    method GetState() returns (state: State)
      ensures state == myState
    {
      return myState;
    }

    /** Replaces the whole record; later reads see the new one. */
    method LoadState(state: State)
      modifies this
      ensures myState == state
    {
      myState := state;
    }

    function GetNewRelicAccountId(): (id: string)
      reads this, myState
      requires Valid()
      ensures IsTrimmed(id)
      ensures id == myState.GetNewRelicAccountId()
    {
      myState.GetNewRelicAccountId()
    }

    /** The component trims, and the record trims again; the second trim
      changes nothing, so the stored id is the argument trimmed once. */
    method SetNewRelicAccountId(id: string)
      modifies myState
      ensures Valid()
      ensures GetNewRelicAccountId() == Trim(id)
    {
      myState.SetNewRelicAccountId(Trim(id));
      TrimIdempotent(id);
    }
  }
}
