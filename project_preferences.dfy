/**
 * The per-project preferences of the plugin: the New Relic application name
 * and the number of days to query, held in a State record that IntelliJ
 * persists, behind a component that hands the record out and takes a new
 * one in.
 */
module ProjectPreferences {
  import opened Wrappers
  import opened JavaText

  /** The day count a project has before anyone sets one. */
  const DefaultNumDaysToQuery := 1

  /** What setNumDaysToQuery leaves stored: the parsed value when the text is
      an int that is not negative, otherwise what was stored before. */
  function AcceptNumDays(text: string, current: Option<int>): Option<int>
  {
    var num := ParseInt(text);
    if num.Some? && num.value >= 0 then Some(num.value) else current
  }

  /** A stored day count is a non-negative Java int. */
  predicate ValidDays(days: Option<int>) {
    days.Some? ==> 0 <= days.value <= MaxInt
  }

  /** The setter keeps the stored count a non-negative int. */
  lemma AcceptNumDaysValid(text: string, current: Option<int>)
    requires ValidDays(current)
    ensures ValidDays(AcceptNumDays(text, current))
    ensures AcceptNumDays(text, current).Some? ==> AcceptNumDays(text, current).value >= 0
  {
  }

  /** Setting the text the getter's value prints as stores that value back. */
  lemma AcceptNumDaysToString(n: int, current: Option<int>)
    requires 0 <= n <= MaxInt
    ensures AcceptNumDays(IntToString(n), current) == Some(n)
  {
    ParseIntToString(n);
  }

  /** Setting the same text twice is setting it once. */
  lemma AcceptNumDaysIdempotent(text: string, current: Option<int>)
    ensures AcceptNumDays(text, AcceptNumDays(text, current)) == AcceptNumDays(text, current)
  {
  }

  /** The values the unit test sets: 99 is kept; -88, 1.5 and a word leave
      99 in place; 0 is kept. */
  lemma AcceptNumDaysExamples()
    ensures AcceptNumDays("99", Some(DefaultNumDaysToQuery)) == Some(99)
    ensures AcceptNumDays("-88", Some(99)) == Some(99)
    ensures AcceptNumDays("1.5", Some(99)) == Some(99)
    ensures AcceptNumDays("not a number", Some(99)) == Some(99)
    ensures AcceptNumDays("0", Some(99)) == Some(0)
  {
    assert "99"[..1] == "9";
    AsciiNonDigit("1.5"[1]);
    AsciiNonDigit("not a number"[0]);
  }

  /** ProjectPreferencesState.State: the record IntelliJ persists. A field
      that was never set is null (None). */
  class State {
    var newRelicAppName: Option<string>
    var numDaysToQuery: Option<int>

    /** What the setters keep true: a trimmed name and a non-negative count. */
    predicate Valid()
      reads this
    {
      && (newRelicAppName.Some? ==> IsTrimmed(newRelicAppName.value))
      && ValidDays(numDaysToQuery)
    }

    constructor()
      ensures newRelicAppName == None && numDaysToQuery == None
      ensures Valid()
    {
      newRelicAppName := None;
      numDaysToQuery := None;
    }

    /** The application name, "" when it was never set. */
    function GetNewRelicAppName(): (name: string)
      reads this
      requires Valid()
      ensures IsTrimmed(name)
      ensures newRelicAppName.None? ==> name == ""
      ensures newRelicAppName.Some? ==> name == newRelicAppName.value
    {
      if newRelicAppName.None? then "" else newRelicAppName.value
    }

    /** Stores the name with both ends trimmed. */
    method SetNewRelicAppName(name: string)
      modifies this
      ensures newRelicAppName == Some(Trim(name))
      ensures numDaysToQuery == old(numDaysToQuery)
      ensures old(Valid()) ==> Valid()
    {
      var trimmed := Trim(name);
      newRelicAppName := Some(trimmed);
    }

    /** The day count, 1 when it was never set. */
    function GetNumDaysToQuery(): (days: int)
      reads this
      requires Valid()
      ensures 0 <= days <= MaxInt
      ensures numDaysToQuery.None? ==> days == DefaultNumDaysToQuery
      ensures numDaysToQuery.Some? ==> days == numDaysToQuery.value
    {
      if numDaysToQuery.None? then DefaultNumDaysToQuery else numDaysToQuery.value
    }

    /** Stores the parsed count when the text is a non-negative int, and
      throws the text away otherwise. */
    method SetNumDaysToQuery(text: string)
      modifies this
      ensures numDaysToQuery == AcceptNumDays(text, old(numDaysToQuery))
      ensures newRelicAppName == old(newRelicAppName)
      ensures old(Valid()) ==> Valid()
    {
      var num := ParseInt(text);
      if num.Some? && num.value >= 0 {
        numDaysToQuery := Some(num.value);
      }
    }
  }

  /** ProjectPreferencesState: the component that owns the current State. */
  class ProjectPreferencesState {
    var myState: State

    predicate Valid()
      reads this, myState
    {
      myState.Valid()
    }

    constructor()
      ensures fresh(myState)
      ensures myState.newRelicAppName == None && myState.numDaysToQuery == None
      ensures Valid()
    {
      myState := new State();
    }

    method GetState() returns (state: State)
      ensures state == myState
    {
      return myState;
    }

    /** Replaces the whole record; later reads see the new one. */
    method LoadState(state: State)
      modifies this
      ensures myState == state
    {
      myState := state;
    }

    function GetNewRelicAppName(): (name: string)
      reads this, myState
      requires Valid()
      ensures IsTrimmed(name)
      ensures name == myState.GetNewRelicAppName()
    {
      myState.GetNewRelicAppName()
    }

    method SetNewRelicAppName(name: string)
      modifies myState
      requires Valid()
      ensures Valid()
      ensures GetNewRelicAppName() == Trim(name)
      ensures myState.numDaysToQuery == old(myState.numDaysToQuery)
    {
      myState.SetNewRelicAppName(name);
    }

    function GetNumDaysToQuery(): (days: int)
      reads this, myState
      requires Valid()
      ensures 0 <= days <= MaxInt
      ensures days == myState.GetNumDaysToQuery()
    {
      myState.GetNumDaysToQuery()
    }

    method SetNumDaysToQuery(text: string)
      modifies myState
      requires Valid()
      ensures Valid()
      ensures myState.numDaysToQuery == AcceptNumDays(text, old(myState.numDaysToQuery))
      ensures myState.newRelicAppName == old(myState.newRelicAppName)
    {
      myState.SetNumDaysToQuery(text);
    }
  }
}
