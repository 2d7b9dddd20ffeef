/** The author-id navigation of the component: the current id, the text box, the
    autopilot direction (`searchUntilSimilarityDirection`) and the autopilot switch
    (`searchUntilSimilarity`). The pure functions give the effect of each handler on
    the state; the class `AuthorBrowser` holds the fields and its methods update them
    in place as the handlers do. `Math.random()` is the parameter `draw`, the
    similarity library the parameter `rating`. */
module Navigation {
  import opened Works
  import opened Similarity
  import opened Clustering
  import opened AuthorIds

  /** '' (`Unset`), 'next', 'previous' and 'random'. */
  datatype Direction = Unset | Next | Previous | Random

  /** The two ways a handler throws: `authorIdNumber` on an id without a digit, and
      `findNextSimilarity` when the direction has no entry in its table. */
  datatype NavError = NoDigitsInAuthorId | NoHandlerForDirection

  /** The fields the handlers read and write. `authorWorks` is `authorWorksJson`:
      None stands for `{}` (before a fetch completes, or after it failed). */
  datatype Nav = Nav(
    authorId: string,
    textBox: string,
    direction: Direction,
    searchUntilSimilarity: bool,
    settings: Settings,
    authorWorks: Option<seq<Work>>)

  /** The state after a handler, and the error it threw, if any. A handler that throws
      keeps the fields it had already assigned. */
  datatype Step = Step(state: Nav, failure: Option<NavError>)

  /** The initial `data()` of the component. */
  const Initial: Nav := Nav("OL1394244A", "", Unset, true, Settings(true, true), None)

  /** `increaseAuthorId(amount)`: the direction is assigned first, then the id is
      rebuilt from its number, which throws when the id has no digit. */
  function Increased(s: Nav, amount: int): (r: Step)
    ensures r.state.direction == (if amount > 0 then Next else Previous)
    ensures r.failure.None? <==> AuthorIdNumber(s.authorId).Some?
    ensures r.failure.None? ==> r.state.authorId == FormatAuthorId(AuthorIdNumber(s.authorId).value + amount)
    ensures r.failure.Some? ==> r.state.authorId == s.authorId
    ensures r.state.(authorId := s.authorId, direction := s.direction) == s
  {
    var turned := s.(direction := if amount > 0 then Next else Previous);
    match AuthorIdNumber(s.authorId)
    case None => Step(turned, Some(NoDigitsInAuthorId))
    case Some(n) => Step(turned.(authorId := FormatAuthorId(n + amount)), None)
  }

  /** `setRandomAuthorId()` with `Math.random()` returning `draw`. */
  function Randomised(s: Nav, draw: real): (r: Nav)
    requires 0.0 <= draw < 1.0
    ensures r.direction == Random
    ensures exists n :: 1 <= n <= HighestAuthorId && r.authorId == FormatAuthorId(n)
    ensures r.(authorId := s.authorId, direction := s.direction) == s
  {
    var n := RandomAuthorNumber(draw);
    s.(direction := Random, authorId := FormatAuthorId(n))
  }

  /** Whether the autopilot moves on: it is switched on and the current works have no
      group of similar titles. */
  predicate Moves(s: Nav, rating: (string, string) -> real) {
    s.searchUntilSimilarity && |SimilarGroups(s.authorWorks, s.settings, rating)| == 0
  }

  /** `findNextSimilarity()`: when the autopilot moves, look up the direction in the
      table of handlers; '' has no entry, so the call throws. Otherwise the id moves
      one up, one down or to a random number, as the stored direction says, and
      nothing but the id (and, for a random move, the direction) changes. */
  function NextSimilarity(s: Nav, rating: (string, string) -> real, draw: real): (r: Step)
    requires 0.0 <= draw < 1.0
    ensures !Moves(s, rating) ==> r == Step(s, None)
    ensures Moves(s, rating) && s.direction == Unset ==> r == Step(s, Some(NoHandlerForDirection))
    ensures Moves(s, rating) && (s.direction == Next || s.direction == Previous) ==>
      var amount := if s.direction == Next then 1 else -1;
      && r.state.direction == s.direction
      && (r.failure.None? <==> AuthorIdNumber(s.authorId).Some?)
      && (r.failure.None? ==> r.state.authorId == FormatAuthorId(AuthorIdNumber(s.authorId).value + amount))
      && (r.failure.Some? ==> r.state == s)
    ensures Moves(s, rating) && s.direction == Random ==>
      && r.failure.None? && r.state.direction == Random
      && exists n :: 1 <= n <= HighestAuthorId && r.state.authorId == FormatAuthorId(n)
    ensures r.state.(authorId := s.authorId, direction := s.direction) == s
  {
    if Moves(s, rating) then
      match s.direction
      case Unset => Step(s, Some(NoHandlerForDirection))
      case Next => Increased(s, 1)
      case Previous => Increased(s, -1)
      case Random => Step(Randomised(s, draw), None)
    else Step(s, None)
  }

  /** `submitAuthorId()`: the direction is cleared; when the text box already holds the
      current id, the works are fetched again without the cache, and the synchronous
      part of that fetch empties `authorWorksJson`. The flag says whether it did. */
  function Submitted(s: Nav): (r: (Nav, bool))
    ensures r.1 <==> s.textBox == s.authorId
    ensures r.0.direction == Unset && r.0.authorId == s.textBox
    ensures r.0.authorWorks == (if r.1 then None else s.authorWorks)
    ensures r.0.(authorId := s.authorId, direction := s.direction, authorWorks := s.authorWorks) == s
  {
    var refresh := s.authorId == s.textBox;
    (s.(direction := Unset, authorWorks := if refresh then None else s.authorWorks, authorId := s.textBox), refresh)
  }

  /** One run of the `authorId` watcher, its steps taken one after the other: the text
      box follows the id, the works fetch ends with `fetched` (None when it failed or
      the reply had no `entries`), then `findNextSimilarity` runs. */
  function Visited(s: Nav, fetched: Option<seq<Work>>, rating: (string, string) -> real, draw: real): (r: Step)
    requires 0.0 <= draw < 1.0
    ensures r.state.textBox == s.authorId && r.state.authorWorks == fetched
    ensures r.state.searchUntilSimilarity == s.searchUntilSimilarity && r.state.settings == s.settings
    ensures r.state.authorId != s.authorId ==>
      s.searchUntilSimilarity && SimilarGroups(fetched, s.settings, rating) == []
  {
    NextSimilarity(s.(textBox := s.authorId, authorWorks := fetched), rating, draw)
  }

  /** Moving one step up or down from `OL${n}A` gives `OL${n+1}A` or `OL${n-1}A`, and the
      new id reads back as the new number while it is not negative. */
  lemma IncreaseMovesByAmount(s: Nav, n: nat, amount: int)
    requires s.authorId == FormatAuthorId(n) && n + amount >= 0
    ensures Increased(s, amount).failure.None?
    ensures Increased(s, amount).state.authorId == FormatAuthorId(n + amount)
    ensures AuthorIdNumber(Increased(s, amount).state.authorId) == Some(n + amount)
  {
    IdRoundTrip(n);
    assert AuthorIdNumber(s.authorId) == Some(n);
    var t := Increased(s, amount).state;
    assert t.authorId == FormatAuthorId(n + amount);
    IdRoundTrip(n + amount);
  }

  lemma SpelledIds()
    ensures FormatAuthorId(0) == "OL0A" && FormatAuthorId(-1) == "OL-1A"
    ensures FormatAuthorId(5) == "OL5A" && FormatAuthorId(6) == "OL6A"
  {
    assert Decimal(0) == "0" && Decimal(1) == "1" && Decimal(5) == "5" && Decimal(6) == "6";
  }

  lemma SpelledHundreds()
    ensures FormatAuthorId(99) == "OL99A" && FormatAuthorId(100) == "OL100A" && FormatAuthorId(101) == "OL101A"
  {
    assert Decimal(9) == "9" && Decimal(99) == "99";
    assert Decimal(1) == "1" && Decimal(10) == "10" && Decimal(100) == "100";
    assert Decimal(101) == "101";
  }

  /** OL100A goes to OL101A forwards and to OL99A backwards. */
  lemma HundredNeighbours(s: Nav)
    requires s.authorId == "OL100A"
    ensures Increased(s, 1) == Step(s.(direction := Next, authorId := "OL101A"), None)
    ensures Increased(s, -1) == Step(s.(direction := Previous, authorId := "OL99A"), None)
  {
    SpelledHundreds();
    IncreaseMovesByAmount(s, 100, 1);
    IncreaseMovesByAmount(s, 100, -1);
  }

  /** There is no positivity guard: going back from OL0A gives OL-1A, and going back
      again reads the number 1 and gives OL0A. */
  lemma NoPositivityGuard(s: Nav)
    requires s.authorId == "OL0A"
    ensures Increased(s, -1).state.authorId == "OL-1A"
    ensures Increased(Increased(s, -1).state, -1).state.authorId == "OL0A"
  {
    SpelledIds();
    IdRoundTrip(0);
    NegativeIdReadsMagnitude(-1);
    StepFrom(s, 0, -1);
    var once := Increased(s, -1).state;
    StepFrom(once, 1, -1);
  }

  lemma StepFrom(s: Nav, n: nat, amount: int)
    requires AuthorIdNumber(s.authorId) == Some(n)
    ensures Increased(s, amount).state.authorId == FormatAuthorId(n + amount)
  {
  }

  /** A step of one up or down always changes an id that has a number. */
  lemma {:induction false} StepChangesId(s: Nav, amount: int)
    requires amount == 1 || amount == -1
    requires AuthorIdNumber(s.authorId).Some?
    ensures Increased(s, amount).state.authorId != s.authorId
  {
    var n := AuthorIdNumber(s.authorId).value;
    var m := n + amount;
    var t := Increased(s, amount).state;
    assert t.authorId == FormatAuthorId(m);
    if m >= 0 {
      IdRoundTrip(m);
    } else {
      NegativeIdReadsMagnitude(m);
    }
    assert AuthorIdNumber(t.authorId) != Some(n);
  }

  /** The autopilot changes the id only when it is switched on and there are no groups;
      with digits in the id and a direction set, it then always moves to a new id. */
  lemma AutopilotMovesOnlyWithoutGroups(s: Nav, rating: (string, string) -> real, draw: real)
    requires 0.0 <= draw < 1.0
    ensures NextSimilarity(s, rating, draw).state.authorId != s.authorId ==> Moves(s, rating)
    ensures Moves(s, rating) && (s.direction == Next || s.direction == Previous)
            && AuthorIdNumber(s.authorId).Some?
            ==> NextSimilarity(s, rating, draw).state.authorId != s.authorId
  {
    if Moves(s, rating) && AuthorIdNumber(s.authorId).Some? {
      if s.direction == Next {
        StepChangesId(s, 1);
      } else if s.direction == Previous {
        StepChangesId(s, -1);
      }
    }
  }

  /** After a submit the direction is '', so the autopilot, when it moves, throws
      instead of changing the id. */
  lemma SubmitStopsAutopilot(s: Nav, rating: (string, string) -> real, draw: real)
    requires 0.0 <= draw < 1.0
    ensures var t := Submitted(s).0;
      Moves(t, rating) ==> NextSimilarity(t, rating, draw) == Step(t, Some(NoHandlerForDirection))
    ensures var t := Submitted(s).0;
      !Moves(t, rating) ==> NextSimilarity(t, rating, draw) == Step(t, None)
  {
  }

  /** A failed works fetch leaves no groups, so an autopilot switched on keeps moving
      in its direction. */
  lemma FailedFetchKeepsMoving(s: Nav, rating: (string, string) -> real, draw: real)
    requires 0.0 <= draw < 1.0 && s.searchUntilSimilarity
    ensures var t := s.(textBox := s.authorId, authorWorks := None);
      Visited(s, None, rating, draw) == NextSimilarity(t, rating, draw) && Moves(t, rating)
  {
    SimilarGroupsReportable(None, s.settings, rating);
  }

  /** With the autopilot going forwards from OL5A and a failed fetch, the next visit
      goes to OL6A. */
  lemma FailedFetchAdvancesFromFive(s: Nav, rating: (string, string) -> real, draw: real)
    requires 0.0 <= draw < 1.0
    requires s.authorId == "OL5A" && s.direction == Next && s.searchUntilSimilarity
    ensures Visited(s, None, rating, draw).state.authorId == "OL6A"
    ensures Visited(s, None, rating, draw).failure.None?
  {
    FailedFetchKeepsMoving(s, rating, draw);
    SpelledIds();
    IncreaseMovesByAmount(s.(textBox := s.authorId, authorWorks := None), 5, 1);
  }

  /** The component's state, held in fields that the handlers assign. */
  class AuthorBrowser {
    var authorId: string
    var authorIdTextBox: string
    var direction: Direction
    var searchUntilSimilarity: bool
    var settings: Settings
    var authorWorks: Option<seq<Work>>

    function State(): Nav
      reads this
    {
      Nav(authorId, authorIdTextBox, direction, searchUntilSimilarity, settings, authorWorks)
    }

    constructor ()
      ensures State() == Initial
    {
      authorId := "OL1394244A";
      authorIdTextBox := "";
      direction := Unset;
      searchUntilSimilarity := true;
      settings := Settings(true, true);
      authorWorks := None;
    }

    /** `increaseAuthorId(amount)`. */
    method IncreaseAuthorId(amount: int) returns (failure: Option<NavError>)
      modifies this
      ensures Step(State(), failure) == Increased(old(State()), amount)
    {
      direction := if amount > 0 then Next else Previous;
      var number := AuthorIdNumber(authorId);
      if number.None? {
        return Some(NoDigitsInAuthorId);
      }
      authorId := FormatAuthorId(number.value + amount);
      failure := None;
    }

    /** `setRandomAuthorId()`. */
    method SetRandomAuthorId(draw: real)
      requires 0.0 <= draw < 1.0
      modifies this
      ensures State() == Randomised(old(State()), draw)
    {
      direction := Random;
      var randomNumber := RandomAuthorNumber(draw);
      authorId := FormatAuthorId(randomNumber);
    }

    /** `findNextSimilarity()`. */
    method FindNextSimilarity(rating: (string, string) -> real, draw: real) returns (failure: Option<NavError>)
      requires 0.0 <= draw < 1.0
      modifies this
      ensures Step(State(), failure) == NextSimilarity(old(State()), rating, draw)
    {
      failure := None;
      var groups := GroupsOfSimilarWorks(authorWorks, settings, rating);
      if searchUntilSimilarity && |groups| == 0 {
        match direction
        case Unset =>
          failure := Some(NoHandlerForDirection);
        case Next =>
          failure := IncreaseAuthorId(1);
        case Previous =>
          failure := IncreaseAuthorId(-1);
        case Random =>
          SetRandomAuthorId(draw);
      }
    }

    /** `submitAuthorId()`; `refresh` says whether the works are fetched again. */
    method SubmitAuthorId() returns (refresh: bool)
      modifies this
      ensures (State(), refresh) == Submitted(old(State()))
    {
      direction := Unset;
      refresh := authorId == authorIdTextBox;
      if refresh {
        authorWorks := None;
      }
      authorId := authorIdTextBox;
    }

    /** One run of the `authorId` watcher, with the works fetch ending in `fetched`. */
    method Visit(fetched: Option<seq<Work>>, rating: (string, string) -> real, draw: real)
      returns (failure: Option<NavError>)
      requires 0.0 <= draw < 1.0
      modifies this
      ensures Step(State(), failure) == Visited(old(State()), fetched, rating, draw)
    {
      authorIdTextBox := authorId;
      authorWorks := None;
      authorWorks := fetched;
      failure := FindNextSimilarity(rating, draw);
    }
  }
}
