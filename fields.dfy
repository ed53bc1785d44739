/**
 * The field extractors CryptoPanicScraper applies to one article element:
 * `retry_fetch_text` / `retry_fetch_attribute`, `get_source_type`, `get_currencies`
 * and `get_votes`. A browser query is not run here: its outcome is an oracle, the
 * observed result of the k-th attempt or the listed elements.
 */
module Fields {
  import opened Wrappers
  import PyStr
  import Article

  /** One attempt to read text or an attribute: the query raised, found nothing (or a None attribute), or gave a string. */
  datatype Probe = Raised | Absent | Present(value: string)

  /** One `query_selector` for an icon. */
  datatype Query = QueryRaised | NotFound | Found

  /** One `query_selector_all`: it raised, or it listed elements (each described by a `T`). */
  datatype Listing<T> = ListRaised | Listed(items: seq<T>)

  /** One `inner_text()` call on a listed element. */
  datatype Read = ReadRaised | ReadText(text: string)

  /** The attempt reached `return text.strip()`: a non-empty (truthy) string came back. */
  predicate Usable(p: Probe) {
    p.Present? && p.value != ""
  }

  function Max0(n: int): nat {
    if n < 0 then 0 else n
  }

  // ---------------------------------------------------------------------------------
  // retry_fetch_text / retry_fetch_attribute

  /** What the retry loop returns once it is at attempt number `attempt`. */
  function FetchFrom(probes: nat -> Probe, attempt: nat, maxRetries: int, default: string): string
    decreases maxRetries - attempt
  {
    if attempt >= maxRetries then default
    else if Usable(probes(attempt)) then PyStr.Strip(probes(attempt).value)
    else FetchFrom(probes, attempt + 1, maxRetries, default)
  }

  function Fetch(probes: nat -> Probe, maxRetries: int, default: string): string {
    FetchFrom(probes, 0, maxRetries, default)
  }

  lemma {:induction false} FetchFromReaches(probes: nat -> Probe, i: nat, k: nat, maxRetries: int, default: string)
    requires i <= k < maxRetries && Usable(probes(k))
    requires forall j :: i <= j < k ==> !Usable(probes(j))
    ensures FetchFrom(probes, i, maxRetries, default) == PyStr.Strip(probes(k).value)
    decreases k - i
  {
    if i < k {
      assert !Usable(probes(i));
      FetchFromReaches(probes, i + 1, k, maxRetries, default);
    }
  }

  lemma {:induction false} FetchFromExhausted(probes: nat -> Probe, i: nat, maxRetries: int, default: string)
    requires forall j :: i <= j < maxRetries ==> !Usable(probes(j))
    ensures FetchFrom(probes, i, maxRetries, default) == default
    decreases maxRetries - i
  {
    if i < maxRetries {
      FetchFromExhausted(probes, i + 1, maxRetries, default);
    }
  }

  /** The first attempt (within `max_retries`) that gets a non-empty value decides the result: its stripped form. */
  lemma FetchFirstUsable(probes: nat -> Probe, k: nat, maxRetries: int, default: string)
    requires k < maxRetries && Usable(probes(k))
    requires forall j :: 0 <= j < k ==> !Usable(probes(j))
    ensures Fetch(probes, maxRetries, default) == PyStr.Strip(probes(k).value)
  {
    FetchFromReaches(probes, 0, k, maxRetries, default);
  }

  /** With no non-empty value in any of the `max_retries` attempts, the default comes back. */
  lemma FetchDefault(probes: nat -> Probe, maxRetries: int, default: string)
    requires forall j :: 0 <= j < maxRetries ==> !Usable(probes(j))
    ensures Fetch(probes, maxRetries, default) == default
  {
    FetchFromExhausted(probes, 0, maxRetries, default);
  }

  /** A whitespace-only value is truthy, so it is returned stripped, as "", not as the default. */
  lemma FetchWhitespaceIsEmpty(probes: nat -> Probe, k: nat, maxRetries: int, default: string)
    requires k < maxRetries && probes(k).Present? && probes(k).value != "" && PyStr.AllSpace(probes(k).value)
    requires forall j :: 0 <= j < k ==> !Usable(probes(j))
    ensures Fetch(probes, maxRetries, default) == ""
  {
    FetchFirstUsable(probes, k, maxRetries, default);
  }

  /**
   * The attempt loop of `retry_fetch_text` and `retry_fetch_attribute` (the two are the
   * same loop over different queries). `attempts` counts the queries made.
   */
  method RetryFetch(probes: nat -> Probe, maxRetries: int, default: string) returns (value: string, attempts: nat)
    ensures value == Fetch(probes, maxRetries, default)
    ensures attempts <= Max0(maxRetries)
    ensures attempts < Max0(maxRetries) ==> attempts > 0 && Usable(probes(attempts - 1))
    ensures forall j :: 0 <= j < attempts - 1 ==> !Usable(probes(j))
  {
    var attempt: nat := 0;
    while attempt < maxRetries
      invariant attempt <= Max0(maxRetries)
      invariant forall j :: 0 <= j < attempt ==> !Usable(probes(j))
      invariant FetchFrom(probes, attempt, maxRetries, default) == Fetch(probes, maxRetries, default)
      decreases maxRetries - attempt
    {
      var p := probes(attempt);
      if p.Present? && p.value != "" {
        value, attempts := PyStr.Strip(p.value), attempt + 1;
        return;
      }
      attempt := attempt + 1;
    }
    value, attempts := default, attempt;
  }

  // ---------------------------------------------------------------------------------
  // get_source_type

  /**
   * The source type from the two icon queries: the twitter icon is checked first and wins;
   * a query that raises gives "unknown".
   */
  function SourceTypeOf(twitter: Query, youtube: Query): (r: string)
    ensures r == "twitter" <==> twitter == Found
    ensures r == "youtube" <==> twitter == NotFound && youtube == Found
    ensures r == "link" <==> twitter == NotFound && youtube == NotFound
    ensures r == "unknown" <==> twitter == QueryRaised || (twitter == NotFound && youtube == QueryRaised)
  {
    match twitter
    case QueryRaised => "unknown"
    case Found => "twitter"
    case NotFound =>
      match youtube
      case QueryRaised => "unknown"
      case Found => "youtube"
      case NotFound => "link"
  }

  /** The result is one of the record type's three documented names exactly when no icon query raised. */
  lemma SourceTypeDocumented(twitter: Query, youtube: Query)
    ensures Article.ParseSourceType(SourceTypeOf(twitter, youtube)).Some?
            <==> twitter != QueryRaised && (twitter == NotFound ==> youtube != QueryRaised)
  {
  }

  // ---------------------------------------------------------------------------------
  // get_currencies

  const NoCurrency: seq<string> := ["No currency"]

  predicate AllRead(items: seq<Read>) {
    forall i :: 0 <= i < |items| ==> items[i].ReadText?
  }

  /** The ticker texts, or `['No currency']` when there are none or any query raised. */
  function Currencies(links: Listing<Read>): (r: seq<string>)
    ensures r != []
    ensures links.Listed? && links.items != [] && AllRead(links.items) ==>
              |r| == |links.items| && forall i :: 0 <= i < |r| ==> r[i] == links.items[i].text
    ensures !(links.Listed? && links.items != [] && AllRead(links.items)) ==> r == NoCurrency
  {
    match links
    case ListRaised => NoCurrency
    case Listed(items) =>
      if items != [] && AllRead(items)
      then seq(|items|, i requires 0 <= i < |items| => items[i].text)
      else NoCurrency
  }

  // ---------------------------------------------------------------------------------
  // get_votes

  /** What one vote element contributes: nothing, an entry, or the end of the loop (an exception). */
  datatype VoteStep = Skip | Entry(action: string, count: int) | Stop

  /**
   * One iteration of the `get_votes` loop: a truthy title gives its first (up to) two
   * characters as the count, and as the key the title with every occurrence of that
   * prefix and of "votes" removed, then stripped. `int()` failing, like `get_attribute`
   * raising, ends the loop.
   */
  function ParseVote(p: Probe): VoteStep {
    match p
    case Raised => Stop
    case Absent => Skip
    case Present(title) =>
      if title == "" then Skip
      else
        match VoteCount(title)
        case None => Stop
        case Some(n) => Entry(VoteKey(title), n)
  }

  /** `int(title[:2])`, or `None` where it raises ValueError. */
  function VoteCount(title: string): Option<int> {
    PyStr.ParseInt(title[..VotePrefixLength(title)])
  }

  /** The dictionary key of a vote title: without `title[:2]` and "votes", stripped. */
  function VoteKey(title: string): string
    requires title != ""
  {
    PyStr.Strip(PyStr.RemoveAll(PyStr.RemoveAll(title, title[..VotePrefixLength(title)]), "votes"))
  }

  /** A missing or empty title contributes nothing, and nothing else is skipped. */
  lemma ParseVoteSkip(p: Probe)
    ensures ParseVote(p) == Skip <==> p == Absent || p == Present("")
  {
  }

  /** The loop ends exactly at a raising `get_attribute` or a prefix that `int()` rejects. */
  lemma ParseVoteStop(p: Probe)
    ensures ParseVote(p) == Stop <==>
              p == Raised || (Usable(p) && PyStr.ParseInt(p.value[..VotePrefixLength(p.value)]).None?)
  {
  }

  /**
   * An entry comes from a non-empty title; its count is `int()` of the two-character
   * prefix, so between -9 and 99, and its key has no surrounding whitespace.
   */
  lemma ParseVoteEntry(p: Probe)
    requires ParseVote(p).Entry?
    ensures Usable(p)
    ensures Some(ParseVote(p).count) == PyStr.ParseInt(p.value[..VotePrefixLength(p.value)])
    ensures -9 <= ParseVote(p).count <= 99
    ensures ParseVote(p).action == PyStr.Strip(ParseVote(p).action)
  {
    PyStr.ParseShortBound(p.value[..VotePrefixLength(p.value)]);
    PyStr.StripIdempotent(PyStr.RemoveAll(PyStr.RemoveAll(p.value, p.value[..VotePrefixLength(p.value)]), "votes"));
  }

  /** The length of `title[:2]`. */
  function VotePrefixLength(title: string): (n: nat)
    ensures n <= |title| && n <= 2
  {
    if |title| < 2 then |title| else 2
  }

  /** The dictionary built so far and whether the loop has been left by an exception. */
  datatype VoteState = VoteState(votes: map<string, int>, stopped: bool)

  /** What each listed vote element contributes, in order. */
  function VoteSteps(titles: seq<Probe>): (r: seq<VoteStep>)
    ensures |r| == |titles| && forall i :: 0 <= i < |titles| ==> r[i] == ParseVote(titles[i])
  {
    seq(|titles|, i requires 0 <= i < |titles| => ParseVote(titles[i]))
  }

  /** One pass of the loop body: a stopped loop stays stopped, otherwise the step applies. */
  function VoteNext(before: VoteState, step: VoteStep): VoteState {
    if before.stopped then before
    else
      match step
      case Skip => before
      case Stop => VoteState(before.votes, true)
      case Entry(a, n) => VoteState(before.votes[a := n], false)
  }

  /** The `get_votes` loop over the steps of the listed elements, one after another. */
  function VoteScan(steps: seq<VoteStep>): VoteState {
    if steps == [] then VoteState(map[], false)
    else VoteNext(VoteScan(steps[..|steps| - 1]), steps[|steps| - 1])
  }

  /** `get_votes`: an exception from `query_selector_all` leaves the dictionary empty. */
  function Votes(titles: Listing<Probe>): map<string, int> {
    match titles
    case ListRaised => map[]
    case Listed(items) => VoteScan(VoteSteps(items)).votes
  }

  /** Every key of the dictionary, with its count, is the entry of some step. */
  lemma {:induction false} VoteKeysFromEntries(steps: seq<VoteStep>)
    ensures forall a :: a in VoteScan(steps).votes ==>
              exists i :: 0 <= i < |steps| && steps[i] == Entry(a, VoteScan(steps).votes[a])
  {
    if steps != [] {
      var init := steps[..|steps| - 1];
      VoteKeysFromEntries(init);
      assert forall i :: 0 <= i < |init| ==> init[i] == steps[i];
    }
  }

  /**
   * Conversely, an entry before any stop that no later entry overrides gives its key's
   * count: the last entry for a key wins.
   */
  lemma {:induction false} VoteLastEntryWins(steps: seq<VoteStep>, i: nat)
    requires i < |steps| && steps[i].Entry?
    requires forall j :: 0 <= j <= i ==> steps[j] != Stop
    requires forall j :: i < j < |steps| && steps[j].Entry? ==> steps[j].action != steps[i].action
    ensures steps[i].action in VoteScan(steps).votes
    ensures VoteScan(steps).votes[steps[i].action] == steps[i].count
  {
    var init := steps[..|steps| - 1];
    assert forall j :: 0 <= j < |init| ==> init[j] == steps[j];
    if i == |steps| - 1 {
      RunningUntilStop(init);
    } else {
      VoteLastEntryWins(init, i);
    }
  }

  /** Once the loop has stopped, later elements change nothing. */
  lemma {:induction false} StoppedStays(pre: seq<VoteStep>, post: seq<VoteStep>)
    requires VoteScan(pre).stopped
    ensures VoteScan(pre + post) == VoteScan(pre)
    decreases |post|
  {
    if post == [] {
      assert pre + post == pre;
    } else {
      var init := post[..|post| - 1];
      StoppedStays(pre, init);
      var s := pre + post;
      assert s[..|s| - 1] == pre + init;
    }
  }

  /** The loop never stops before the first failing element. */
  lemma {:induction false} RunningUntilStop(steps: seq<VoteStep>)
    requires forall j :: 0 <= j < |steps| ==> steps[j] != Stop
    ensures !VoteScan(steps).stopped
  {
    if steps != [] {
      var init := steps[..|steps| - 1];
      assert forall j :: 0 <= j < |init| ==> init[j] == steps[j];
      RunningUntilStop(init);
    }
  }

  /**
   * A parse failure (or a raising `get_attribute`) at element `i` ends the loop there:
   * the dictionary is what the elements before it built.
   */
  lemma VotesStopAt(titles: seq<Probe>, i: nat)
    requires i < |titles| && ParseVote(titles[i]) == Stop
    requires forall j :: 0 <= j < i ==> ParseVote(titles[j]) != Stop
    ensures Votes(Listed(titles)) == Votes(Listed(titles[..i]))
  {
    var steps := VoteSteps(titles);
    assert VoteSteps(titles[..i]) == steps[..i];
    ScanStopAt(steps, i);
  }

  /** The scan that meets its first stop at step `i` keeps the dictionary of the steps before it. */
  lemma ScanStopAt(steps: seq<VoteStep>, i: nat)
    requires i < |steps| && steps[i] == Stop
    requires forall j :: 0 <= j < i ==> steps[j] != Stop
    ensures VoteScan(steps).votes == VoteScan(steps[..i]).votes
  {
    var pre := steps[..i];
    RunningUntilStop(pre);
    var upto := steps[..i + 1];
    assert upto[..i] == pre;
    StoppedStays(upto, steps[i + 1..]);
    assert upto + steps[i + 1..] == steps;
  }

  /**
   * `get_votes` as the source writes it: a loop that fills a dictionary and leaves at the
   * first exception, keeping what it has.
   */
  method GetVotes(titles: Listing<Probe>) returns (votes: map<string, int>)
    ensures votes == Votes(titles)
  {
    votes := map[];
    if titles.ListRaised? {
      return;
    }
    var items := titles.items;
    ghost var steps := VoteSteps(items);
    var i := 0;
    while i < |items|
      invariant 0 <= i <= |items|
      invariant VoteScan(steps[..i]) == VoteState(votes, false)
    {
      assert steps[..i + 1][..i] == steps[..i];
      match ParseVote(items[i]) {
        case Stop =>
          StoppedStays(steps[..i + 1], steps[i + 1..]);
          assert steps[..i + 1] + steps[i + 1..] == steps;
          return;
        case Skip =>
        case Entry(action, count) =>
          votes := votes[action := count];
      }
      i := i + 1;
    }
    assert steps[..i] == steps;
  }

  /**
   * The documented title shape "N Label votes": a one-digit count, a space, a label and
   * the word "votes" give the entry `label: N`, provided the count and its space do not
   * occur again in the title and the label does not contain "votes" (otherwise
   * `replace` also removes those).
   */
  lemma VotePlural(d: char, tag: string)
    requires PyStr.IsDigit(d)
    requires tag != [] && !PyStr.IsSpace(tag[0]) && !PyStr.IsSpace(tag[|tag| - 1])
    requires forall i: nat :: !PyStr.OccursAt(tag + " votes", [d, ' '], i)
    requires forall i: nat :: !PyStr.OccursAt(tag, "votes", i)
    ensures ParseVote(Present([d, ' '] + tag + " votes")) == Entry(tag, d as int - '0' as int)
  {
    var title := [d, ' '] + tag + " votes";
    assert title[..VotePrefixLength(title)] == [d, ' '];
    PluralCount(d);
    PluralKey(d, tag);
  }

  lemma PluralCount(d: char)
    requires PyStr.IsDigit(d)
    ensures PyStr.ParseInt([d, ' ']) == Some(d as int - '0' as int)
  {
    assert PyStr.AllSpace(" ") && !PyStr.IsSeparator(' ') && [d] + " " == [d, ' '];
    PyStr.ParseDigitSpace(d, " ");
  }

  lemma PluralKey(d: char, tag: string)
    requires tag != [] && !PyStr.IsSpace(tag[0]) && !PyStr.IsSpace(tag[|tag| - 1])
    requires forall i: nat :: !PyStr.OccursAt(tag + " votes", [d, ' '], i)
    requires forall i: nat :: !PyStr.OccursAt(tag, "votes", i)
    ensures PyStr.Strip(PyStr.RemoveAll(PyStr.RemoveAll([d, ' '] + tag + " votes", [d, ' ']), "votes")) == tag
  {
    var pre := [d, ' '];
    var rest := tag + " votes";
    assert [d, ' '] + tag + " votes" == pre + rest;
    PyStr.RemoveLeading(pre, rest);
    DropVotesWord(tag);
    StripTrailingSpace(tag);
  }

  /** `(tag + " votes").replace("votes", "")` is `tag + " "` when `tag` has no "votes". */
  lemma DropVotesWord(tag: string)
    requires forall i: nat :: !PyStr.OccursAt(tag, "votes", i)
    ensures PyStr.RemoveAll(tag + " votes", "votes") == tag + " "
  {
    var body := tag + " ";
    assert tag + " votes" == body + ("votes" + "") == tag + " " + "votes";
    PyStr.SpaceBlocks(tag, "votes", "votes");
    PyStr.RemoveKeepsPrefix(body, "votes" + "", "votes");
    PyStr.RemoveAtFront("votes", "");
  }

  lemma StripTrailingSpace(tag: string)
    requires tag != [] && !PyStr.IsSpace(tag[0]) && !PyStr.IsSpace(tag[|tag| - 1])
    ensures PyStr.Strip(tag + " ") == tag
  {
    PyStr.StripSurrounded("", tag, " ");
    assert "" + tag + " " == tag + " ";
  }

  /**
   * The common title shape "NN Label votes": a two-digit count, a space, a label and the
   * word "votes" give the entry `label: NN`, under the same conditions as `VotePlural`.
   */
  lemma VotePluralTwoDigits(d1: char, d2: char, tag: string)
    requires PyStr.IsDigit(d1) && PyStr.IsDigit(d2)
    requires tag != [] && !PyStr.IsSpace(tag[0]) && !PyStr.IsSpace(tag[|tag| - 1])
    requires forall i: nat :: !PyStr.OccursAt(" " + tag + " votes", [d1, d2], i)
    requires forall i: nat :: !PyStr.OccursAt(tag, "votes", i)
    ensures ParseVote(Present([d1, d2] + " " + tag + " votes"))
            == Entry(tag, (d1 as int - '0' as int) * 10 + (d2 as int - '0' as int))
  {
    var title := [d1, d2] + " " + tag + " votes";
    assert title[..VotePrefixLength(title)] == [d1, d2];
    PyStr.ParseTwoDigits(d1, d2);
    TwoDigitPluralKey(d1, d2, tag);
  }

  lemma TwoDigitPluralKey(d1: char, d2: char, tag: string)
    requires tag != [] && !PyStr.IsSpace(tag[0]) && !PyStr.IsSpace(tag[|tag| - 1])
    requires forall i: nat :: !PyStr.OccursAt(" " + tag + " votes", [d1, d2], i)
    requires forall i: nat :: !PyStr.OccursAt(tag, "votes", i)
    ensures PyStr.Strip(PyStr.RemoveAll(PyStr.RemoveAll([d1, d2] + " " + tag + " votes", [d1, d2]), "votes")) == tag
  {
    DropTwoDigitCount(d1, d2, tag, " votes");
    LeadWithoutVotes(tag);
    DropVotesWord(" " + tag);
    StripBothSpaces(tag);
  }

  /** A leading space does not add an occurrence of "votes". */
  lemma LeadWithoutVotes(tag: string)
    requires forall i: nat :: !PyStr.OccursAt(tag, "votes", i)
    ensures forall i: nat :: !PyStr.OccursAt(" " + tag, "votes", i)
  {
    var lead := " " + tag;
    forall i: nat ensures !PyStr.OccursAt(lead, "votes", i) {
      if i > 0 {
        PyStr.OccursShift(' ', tag, "votes", i - 1);
      } else if 5 <= |lead| {
        assert lead[0..5][0] == ' ';
      }
    }
  }

  lemma StripBothSpaces(tag: string)
    requires tag != [] && !PyStr.IsSpace(tag[0]) && !PyStr.IsSpace(tag[|tag| - 1])
    ensures PyStr.Strip(" " + tag + " ") == tag
  {
    assert PyStr.AllSpace(" ");
    PyStr.StripSurrounded(" ", tag, " ");
  }

  /**
   * A two-digit count and a singular "vote": the singular word is not removed, so
   * "NN Label vote" gives the entry `"Label vote": NN`.
   */
  lemma VoteSingular(d1: char, d2: char, tag: string)
    requires PyStr.IsDigit(d1) && PyStr.IsDigit(d2)
    requires tag != [] && !PyStr.IsSpace(tag[0]) && !PyStr.IsSpace(tag[|tag| - 1])
    requires forall i: nat :: !PyStr.OccursAt(" " + tag + " vote", [d1, d2], i)
    requires forall i: nat :: !PyStr.OccursAt(tag, "votes", i)
    ensures ParseVote(Present([d1, d2] + " " + tag + " vote"))
            == Entry(tag + " vote", (d1 as int - '0' as int) * 10 + (d2 as int - '0' as int))
  {
    var title := [d1, d2] + " " + tag + " vote";
    assert title[..VotePrefixLength(title)] == [d1, d2];
    PyStr.ParseTwoDigits(d1, d2);
    SingularKey(d1, d2, tag);
  }

  lemma SingularKey(d1: char, d2: char, tag: string)
    requires tag != [] && !PyStr.IsSpace(tag[0]) && !PyStr.IsSpace(tag[|tag| - 1])
    requires forall i: nat :: !PyStr.OccursAt(" " + tag + " vote", [d1, d2], i)
    requires forall i: nat :: !PyStr.OccursAt(tag, "votes", i)
    ensures PyStr.Strip(PyStr.RemoveAll(PyStr.RemoveAll([d1, d2] + " " + tag + " vote", [d1, d2]), "votes"))
            == tag + " vote"
  {
    DropTwoDigitCount(d1, d2, tag, " vote");
    KeepSingularWord(tag);
    StripSingularKey(tag);
  }

  /**
   * Removing a two-digit count that does not occur again leaves the rest of the title:
   * a space, the label and the closing word ("votes" or "vote", with its space).
   */
  lemma DropTwoDigitCount(d1: char, d2: char, tag: string, word: string)
    requires forall i: nat :: !PyStr.OccursAt(" " + tag + word, [d1, d2], i)
    ensures PyStr.RemoveAll([d1, d2] + " " + tag + word, [d1, d2]) == " " + tag + word
  {
    var pre := [d1, d2];
    var rest := " " + tag + word;
    assert [d1, d2] + " " + tag + word == pre + rest;
    PyStr.RemoveLeading(pre, rest);
  }


  lemma StripSingularKey(tag: string)
    requires tag != [] && !PyStr.IsSpace(tag[0]) && !PyStr.IsSpace(tag[|tag| - 1])
    ensures PyStr.Strip(" " + tag + " vote") == tag + " vote"
  {
    var key := tag + " vote";
    assert " " + tag + " vote" == " " + key;
    assert key[0] == tag[0] && key[|key| - 1] == 'e';
    StripLeadingSpace(key);
  }

  /** "vote" is not "votes": `(" " + tag + " vote").replace("votes", "")` changes nothing. */
  lemma KeepSingularWord(tag: string)
    requires forall i: nat :: !PyStr.OccursAt(tag, "votes", i)
    ensures PyStr.RemoveAll(" " + tag + " vote", "votes") == " " + tag + " vote"
  {
    var lead := " " + tag;
    var body := lead + " ";
    assert " " + tag + " vote" == body + "vote" == lead + " " + "vote";
    LeadWithoutVotes(tag);
    PyStr.SpaceBlocks(lead, "vote", "votes");
    PyStr.RemoveKeepsPrefix(body, "vote", "votes");
    assert PyStr.RemoveAll("vote", "votes") == "vote";
  }

  lemma StripLeadingSpace(key: string)
    requires key != [] && !PyStr.IsSpace(key[0]) && !PyStr.IsSpace(key[|key| - 1])
    ensures PyStr.Strip(" " + key) == key
  {
    PyStr.StripSurrounded(" ", key, "");
    assert " " + key + "" == " " + key;
  }

  /**
   * A title that does not start with a sign, a digit or whitespace has a prefix `int()`
   * rejects: the loop ends there.
   */
  lemma VoteWithoutCount(title: string)
    requires title != [] && !PyStr.IsSpace(title[0]) && !PyStr.IsDigit(title[0])
    requires title[0] != '-' && title[0] != '+'
    ensures ParseVote(Present(title)) == Stop
  {
    var t := title[..VotePrefixLength(title)];
    assert t[0] == title[0];
    PyStr.ParseRejectsLeading(t);
  }
}
