/** The blocklist: how its sources are parsed, and how updates interleave with the API handlers
    that change its sources. */
module BlockList {
  import opened Text
  import opened DomainMatch
  import opened RuleConfig

  /** What reading a source gives: nothing, or the lines read before its end or a read error. */
  datatype Source = Unreachable | Readable(lines: seq<string>, complete: bool)

  type Sources = string -> Source

  /** The domain a line blocks: the second field, unless the line is blank or a comment. */
  function LineDomain(line: string): seq<string> {
    var text := TrimSpace(line);
    if text == "" || HasPrefix(text, "#") then []
    else
      var parts := Fields(text);
      if |parts| >= 2 then [parts[1]] else []
  }

  /** A line of a hosts file blocks the name after the address, whatever white space is around it and
      whatever follows it. */
  lemma {:induction false} HostsLine(lead: string, address: string, gap: string, domain: string, rest: string)
    requires AllSpace(lead) && Word(address) && address[0] != '#'
    requires gap != "" && AllSpace(gap) && Word(domain) && (rest == "" || IsSpace(rest[0]))
    ensures LineDomain(lead + (address + (gap + domain + rest))) == [domain]
  {
    hide IsSpace, TrimLeft, TrimRight, Fields;
    var text := address + (gap + domain + TrimRight(rest));
    HostsText(lead, address, gap, domain, rest);
    HostsFields(address, gap, domain, TrimRight(rest));
    assert text[0] == address[0];
  }

  lemma HostsText(lead: string, address: string, gap: string, domain: string, rest: string)
    requires AllSpace(lead) && Word(address) && Word(domain) && (rest == "" || IsSpace(rest[0]))
    ensures TrimSpace(lead + (address + (gap + domain + rest))) == address + (gap + domain + TrimRight(rest))
    ensures TrimRight(rest) == "" || IsSpace(TrimRight(rest)[0])
  {
    hide IsSpace, TrimLeft, TrimRight;
    var head := address + (gap + domain);
    assert address + (gap + domain + rest) == head + rest;
    assert head[0] == address[0] && head[|head| - 1] == domain[|domain| - 1];
    TrimLeftGap(lead, head + rest);
    TrimRightTail(head, rest);
    assert head + TrimRight(rest) == address + (gap + domain + TrimRight(rest));
  }

  lemma HostsFields(address: string, gap: string, domain: string, rest: string)
    requires Word(address) && gap != "" && AllSpace(gap) && Word(domain) && (rest == "" || IsSpace(rest[0]))
    ensures Fields(address + (gap + domain + rest)) == [address, domain] + Fields(rest)
  {
    hide IsSpace, Fields;
    var tail := gap + domain + rest;
    assert tail[0] == gap[0];
    assert "" + address + tail == address + tail;
    FirstField("", address, tail);
    FirstField(gap, domain, rest);
  }

  /** White space, the address, white space, the domain and the rest of a line. */
  predicate HostsParts(line: string, lead: string, address: string, gap: string, domain: string, rest: string) {
    AllSpace(lead) && Word(address) && address[0] != '#' && gap != "" && AllSpace(gap) && Word(domain) &&
    (rest == "" || IsSpace(rest[0])) && line == lead + (address + (gap + domain + rest))
  }

  /** A line of that form, in text. */
  ghost predicate HostsForm(line: string, domain: string) {
    exists lead, address, gap, rest :: HostsParts(line, lead, address, gap, domain, rest)
  }

  /** A line blocks a domain if and only if it has that form; so a comment, a blank line and a line of one
      word block nothing. */
  lemma {:induction false} LineDomainExact(line: string, domain: string)
    ensures LineDomain(line) == [domain] <==> HostsForm(line, domain)
    ensures LineDomain(line) == [] <==> forall d :: !HostsForm(line, d)
  {
    hide IsSpace, TrimLeft, TrimRight, Fields, HostsForm, TrimSpace, LineDomain;
    LineDomainLength(line);
    if LineDomain(line) != [] {
      LineHasForm(line);
    }
    forall d | HostsForm(line, d)
      ensures LineDomain(line) == [d]
    {
      FormBlocks(line, d);
    }
  }

  lemma LineDomainLength(line: string)
    ensures |LineDomain(line)| <= 1
  {
    hide TrimSpace, Fields;
  }

  lemma FormBlocks(line: string, domain: string)
    requires HostsForm(line, domain)
    ensures LineDomain(line) == [domain]
  {
    hide LineDomain, IsSpace;
    var lead, address, gap, rest :| HostsParts(line, lead, address, gap, domain, rest);
    HostsLine(lead, address, gap, domain, rest);
  }

  lemma {:induction false} LineHasForm(line: string)
    requires LineDomain(line) != []
    ensures HostsForm(line, LineDomain(line)[0])
  {
    hide IsSpace, TrimLeft, TrimRight, Fields, TrimSpace, HostsForm;
    var text := TrimSpace(line);
    TrimExact(line, text);
    var lead, trail :| AllSpace(lead) && AllSpace(trail) && line == lead + text + trail;
    var address, gap, domain, rest := TwoFields(text);
    FormOf(lead, address, gap, domain, rest, trail);
    assert text == address + (gap + domain + rest) && address[0] == text[0];
    assert line == lead + (address + (gap + domain + rest)) + trail;
  }

  lemma TwoFields(text: string) returns (address: string, gap: string, domain: string, rest: string)
    requires text != "" && Bare(text) && |Fields(text)| >= 2
    ensures Word(address) && gap != "" && AllSpace(gap) && Word(domain) && (rest == "" || IsSpace(rest[0]))
    ensures text == address + (gap + domain + rest) && Fields(text)[1] == domain
  {
    hide IsSpace, Fields;
    var none, tail;
    none, address, tail := FirstFieldParts(text);
    NoLead(text, none);
    gap, domain, rest := FirstFieldParts(tail);
    SomeGap(tail, gap, domain, rest);
    assert text == address + tail;
    assert Fields(text)[1] == Fields(tail)[0];
  }

  lemma FormOf(lead: string, address: string, gap: string, domain: string, rest: string, trail: string)
    requires AllSpace(lead) && Word(address) && address[0] != '#' && gap != "" && AllSpace(gap) && Word(domain)
    requires (rest == "" || IsSpace(rest[0])) && AllSpace(trail)
    ensures HostsForm(lead + (address + (gap + domain + rest)) + trail, domain)
  {
    hide IsSpace;
    StillSpace(rest, trail);
    var line := lead + (address + (gap + domain + rest)) + trail;
    assert line == lead + (address + (gap + domain + (rest + trail)));
    assert HostsParts(line, lead, address, gap, domain, rest + trail);
  }

  lemma NoLead(text: string, gap: string)
    requires text != "" && Bare(text) && gap <= text && AllSpace(gap)
    ensures gap == ""
  {
    hide IsSpace;
    assert forall i :: 0 <= i < |gap| ==> gap[i] == text[i];
  }

  lemma SomeGap(tail: string, gap: string, w: string, rest: string)
    requires tail == gap + w + rest && Word(w) && (tail == "" || IsSpace(tail[0]))
    ensures gap != ""
  {
    hide IsSpace;
    assert tail[|gap|] == w[0];
  }

  lemma StillSpace(rest: string, trail: string)
    requires (rest == "" || IsSpace(rest[0])) && AllSpace(trail)
    ensures rest + trail == "" || IsSpace((rest + trail)[0])
  {
    hide IsSpace;
  }

  function LinesDomains(lines: seq<string>): seq<string> {
    if lines == [] then [] else LinesDomains(lines[..|lines| - 1]) + LineDomain(lines[|lines| - 1])
  }

  function SourceDomains(source: Source): seq<string> {
    if source.Readable? then LinesDomains(source.lines) else []
  }

  function Members(xs: seq<string>): set<string> {
    set x | x in xs
  }

  /** The domains found in a list of sources. */
  function BlockedBy(sources: Sources, urls: seq<string>): set<string> {
    if urls == [] then {}
    else BlockedBy(sources, urls[..|urls| - 1]) + Members(SourceDomains(sources(urls[|urls| - 1])))
  }

  /** The number of domains reported: those of the sources read to their end. */
  function CountedBy(sources: Sources, urls: seq<string>): nat {
    if urls == [] then 0
    else
      var last := sources(urls[|urls| - 1]);
      CountedBy(sources, urls[..|urls| - 1]) + if last.Readable? && last.complete then |SourceDomains(last)| else 0
  }

  /** Line i of source u, which was read to its end, blocks a domain. */
  predicate Counts(sources: Sources, urls: seq<string>, u: nat, i: nat) {
    u < |urls| && sources(urls[u]).Readable? && sources(urls[u]).complete && i < |sources(urls[u]).lines| &&
    LineDomain(sources(urls[u]).lines[i]) != []
  }

  ghost function BlockingLines(lines: seq<string>): set<nat> {
    set i: nat | i < |lines| && LineDomain(lines[i]) != []
  }

  lemma {:induction false} LinesCounted(lines: seq<string>)
    ensures |LinesDomains(lines)| == |BlockingLines(lines)|
  {
    hide LineDomain;
    if lines == [] {
      assert BlockingLines(lines) == {};
    } else {
      var n := |lines| - 1;
      LinesCounted(lines[..n]);
      LineDomainLength(lines[n]);
      forall i: nat | i < n
        ensures lines[..n][i] == lines[i]
      {
      }
      assert BlockingLines(lines) == BlockingLines(lines[..n]) + if LineDomain(lines[n]) != [] then {n} else {};
    }
  }

  ghost function CountedLines(sources: Sources, urls: seq<string>): set<(nat, nat)> {
    set u: nat, i: nat | u < |urls| && i < MostLines(sources, urls) && Counts(sources, urls, u, i) :: (u, i)
  }

  /** No source has more lines. */
  function MostLines(sources: Sources, urls: seq<string>): (n: nat)
    ensures forall u :: 0 <= u < |urls| && sources(urls[u]).Readable? ==> |sources(urls[u]).lines| <= n
  {
    if urls == [] then 0
    else
      var front, last := MostLines(sources, urls[..|urls| - 1]), sources(urls[|urls| - 1]);
      assert forall u :: 0 <= u < |urls| - 1 ==> urls[..|urls| - 1][u] == urls[u];
      if last.Readable? && |last.lines| > front then |last.lines| else front
  }

  lemma CountedMembers(sources: Sources, urls: seq<string>)
    ensures forall u: nat, i: nat :: (u, i) in CountedLines(sources, urls) <==> Counts(sources, urls, u, i)
  {
    hide LineDomain;
  }

  ghost function Paired(n: nat, own: set<nat>): set<(nat, nat)> {
    set i: nat | i in own :: (n, i)
  }

  /** The lines of a source that count. */
  ghost function OwnLines(source: Source): set<nat> {
    if source.Readable? && source.complete then BlockingLines(source.lines) else {}
  }

  lemma CountedMore(sources: Sources, urls: seq<string>)
    requires urls != []
    ensures var n := |urls| - 1;
            CountedLines(sources, urls) == CountedLines(sources, urls[..n]) + Paired(n, OwnLines(sources(urls[n]))) &&
            CountedLines(sources, urls[..n]) !! Paired(n, OwnLines(sources(urls[n])))
  {
    hide LineDomain, CountedLines;
    var n := |urls| - 1;
    CountedMembers(sources, urls);
    CountedMembers(sources, urls[..n]);
    forall p: (nat, nat)
      ensures p in CountedLines(sources, urls) <==>
              p in CountedLines(sources, urls[..n]) + Paired(n, OwnLines(sources(urls[n])))
      ensures p in CountedLines(sources, urls[..n]) ==> p.0 < n
    {
      var (u, i) := p;
      assert p == (u, i);
      assert u < n ==> urls[..n][u] == urls[u];
    }
  }

  /** The number reported is the number of lines that block a domain, in the sources read to their end. */
  lemma {:induction false} CountedExact(sources: Sources, urls: seq<string>)
    ensures CountedBy(sources, urls) == |CountedLines(sources, urls)|
    ensures forall u: nat, i: nat :: (u, i) in CountedLines(sources, urls) <==> Counts(sources, urls, u, i)
  {
    hide LineDomain, Counts, LinesDomains, CountedLines, BlockingLines, Paired;
    CountedMembers(sources, urls);
    if urls == [] {
      assert CountedLines(sources, urls) == {} by { NoneCounted(sources); }
    } else {
      var n := |urls| - 1;
      var last := sources(urls[n]);
      CountedExact(sources, urls[..n]);
      CountedMore(sources, urls);
      if last.Readable? {
        LinesCounted(last.lines);
      }
      PairsCounted(n, OwnLines(last));
    }
  }

  lemma NoneCounted(sources: Sources)
    ensures CountedLines(sources, []) == {}
  {
  }

  lemma {:induction false} PairsCounted(n: nat, own: set<nat>)
    ensures |Paired(n, own)| == |own|
  {
    if own == {} {
      assert Paired(n, own) == {};
    } else {
      var i :| i in own;
      PairsCounted(n, own - {i});
      assert Paired(n, own) == Paired(n, own - {i}) + {(n, i)};
    }
  }

  /** Some current source has a line that blocks the domain. */
  ghost predicate Listed(sources: Sources, urls: seq<string>, d: string) {
    exists u: nat, i: nat :: u < |urls| && ListsAt(sources(urls[u]), i, d)
  }

  ghost predicate ListsAt(source: Source, i: nat, d: string) {
    source.Readable? && i < |source.lines| && LineDomain(source.lines[i]) == [d]
  }

  lemma {:induction false} LinesExact(lines: seq<string>, d: string)
    ensures d in LinesDomains(lines) <==> exists i: nat :: i < |lines| && LineDomain(lines[i]) == [d]
  {
    hide LineDomain;
    if lines != [] {
      var front := lines[..|lines| - 1];
      LinesExact(front, d);
      LineDomainLength(lines[|lines| - 1]);
      assert d in LineDomain(lines[|lines| - 1]) <==> LineDomain(lines[|lines| - 1]) == [d];
      if i: nat :| i < |lines| && LineDomain(lines[i]) == [d] {
        assert i < |front| ==> front[i] == lines[i];
      }
    }
  }

  ghost predicate SourceLists(source: Source, d: string) {
    exists i: nat :: ListsAt(source, i, d)
  }

  lemma SourceExact(source: Source, d: string)
    ensures d in Members(SourceDomains(source)) <==> SourceLists(source, d)
  {
    hide LineDomain;
    if source.Readable? {
      LinesExact(source.lines, d);
      if i: nat :| i < |source.lines| && LineDomain(source.lines[i]) == [d] {
        assert ListsAt(source, i, d);
      }
    }
  }

  lemma ListedMore(sources: Sources, urls: seq<string>, d: string)
    requires urls != []
    ensures Listed(sources, urls, d) <==>
            Listed(sources, urls[..|urls| - 1], d) || SourceLists(sources(urls[|urls| - 1]), d)
  {
    hide ListsAt;
    var front := urls[..|urls| - 1];
    if u: nat, i: nat :| u < |front| && ListsAt(sources(front[u]), i, d) {
      assert ListsAt(sources(urls[u]), i, d);
    }
    if u: nat, i: nat :| u < |urls| && ListsAt(sources(urls[u]), i, d) {
      assert u < |front| ==> front[u] == urls[u];
    }
  }

  lemma {:induction false} BlockedExact(sources: Sources, urls: seq<string>, d: string)
    ensures d in BlockedBy(sources, urls) <==> Listed(sources, urls, d)
  {
    if urls != [] {
      BlockedExact(sources, urls[..|urls| - 1], d);
      SourceExact(sources(urls[|urls| - 1]), d);
      ListedMore(sources, urls, d);
      hide SourceDomains, Members, Listed, SourceLists;
    }
  }

  /** Parses the lines of one source into a cache. */
  method LoadLines(lines: seq<string>, cache: DomainCache) returns (loaded: nat)
    modifies cache
    ensures cache.keys == old(cache.keys) + Members(LinesDomains(lines)) && loaded == |LinesDomains(lines)|
  {
    loaded := 0;
    for i := 0 to |lines|
      invariant cache.keys == old(cache.keys) + Members(LinesDomains(lines[..i])) && loaded ==
          |LinesDomains(lines[..i])|
    {
      assert lines[..i + 1][..i] == lines[..i];
      var line := TrimSpace(lines[i]);
      if line == "" || HasPrefix(line, "#") {
        continue;
      }
      var parts := Fields(line);
      if |parts| >= 2 {
        cache.Add(parts[1]);
        loaded := loaded + 1;
      }
    }
    assert lines[..|lines|] == lines;
  }

  class Service {
    const sources: Sources
    var urls: seq<string>
    var blockedDomains: DomainCache
    var totalDomains: nat
    var forceUpdate: bool

    /** The service is in this state of the step system. */
    ghost predicate Shows(s: State)
      reads this, blockedDomains
    {
      s.urls == urls && s.token == forceUpdate && s.blocked == blockedDomains.keys
    }

    constructor (sources: Sources, urls: seq<string>)
      ensures Shows(Initial(urls))
      ensures this.urls == urls && this.sources == sources
      ensures fresh(blockedDomains) && blockedDomains.keys == {} && !forceUpdate
    {
      this.sources, this.urls, totalDomains, forceUpdate := sources, urls, 0, false;
      blockedDomains := new DomainCache();
    }

    /** Builds a new cache from all sources, then puts it in place of the old one. */
    method UpdateLists()
      modifies this`blockedDomains, this`totalDomains
      ensures fresh(blockedDomains) && blockedDomains.keys == BlockedBy(sources, urls)
      ensures totalDomains == CountedBy(sources, urls)
      ensures forall s :: old(Shows(s)) && s.updater.NotStarted? ==> Shows(Run(sources, s, Update(Start, |s.urls|)))
      ensures forall s :: old(Shows(s)) && s.updater.Waiting? ==> Shows(Run(sources, s, Update(Tick, |s.urls|)))
    {
      hide LinesDomains, Run;
      var newBlockedDomains := new DomainCache();
      var total := 0;
      for i := 0 to |urls|
        invariant newBlockedDomains.keys == BlockedBy(sources, urls[..i]) && total == CountedBy(sources, urls[..i])
      {
        assert urls[..i + 1][..i] == urls[..i];
        var source := sources(urls[i]);
        if source.Unreachable? {
          continue;
        }
        var loaded := LoadLines(source.lines, newBlockedDomains);
        if !source.complete {
          continue;
        }
        total := total + loaded;
      }
      assert urls[..|urls|] == urls;
      blockedDomains, totalDomains := newBlockedDomains, total;
      UpdateIsRun(sources);
    }

    /** The update that a waiting request asks for. */
    method UpdateOnRequest()
      requires forceUpdate
      modifies this`blockedDomains, this`totalDomains, this`forceUpdate
      ensures fresh(blockedDomains) && !forceUpdate
      ensures forall s :: old(Shows(s)) && s.updater.Waiting? ==> Shows(Run(sources, s, Update(TakeToken, |s.urls|)))
    {
      hide Run;
      forceUpdate := false;
      UpdateLists();
      UpdateIsRun(sources);
    }

    predicate IsBlocked(domain: string)
      reads this, blockedDomains
    {
      blockedDomains.Contains(domain)
    }

    /** At rest the service blocks exactly what its sources list. */
    lemma BlocksListed(urls0: seq<string>, evs: seq<Event>, domain: string)
      requires Shows(Run(sources, Initial(urls0), evs)) && AtRest(Run(sources, Initial(urls0), evs))
      ensures IsBlocked(domain) <==> Listed(sources, urls, domain)
    {
      hide Run, Listed;
      RestBlocksListed(sources, urls0, evs, domain);
    }

    /** Asks for an update; a request already waiting stands for both. */
    method ForceRefresh()
      modifies this`forceUpdate
      ensures forceUpdate
      ensures forall s, id :: old(Shows(s)) && id in s.handlers && s.handlers[id].Published? ==>
                Shows(Next(sources, s, Force(id)))
    {
      forceUpdate := true;
    }

    method UpdateURLs(urls: seq<string>)
      modifies this`urls
      ensures this.urls == urls
      ensures forall s, id :: old(Shows(s)) && id in s.handlers && s.handlers[id] == Read(urls) ==>
                Shows(Next(sources, s, Publish(id)))
    {
      this.urls := urls;
    }
  }

  // Updates and handlers side by side.

  datatype Updater = NotStarted | Waiting | Updating(next: nat, found: set<string>)

  /** Where an API handler is: it has changed the configured sources; it has read them back; it has
      published them and has yet to ask for an update. */
  datatype Handler = Edited | Read(urls: seq<string>) | Published

  /** `latest` is the snapshot of the sources taken by the update started last. */
  datatype State = State(
    configured: seq<string>, urls: seq<string>, token: bool, updater: Updater,
    latest: seq<string>, blocked: set<string>, handlers: map<nat, Handler>)

  datatype Event =
    | AddUrl(id: nat, url: string)
    | RemoveUrl(id: nat, url: string)
    | ReadBack(id: nat)
    | Publish(id: nat)
    | Force(id: nat)
    | Start
    | Tick
    | TakeToken
    | ReadSource
    | Install

  function StartUpdate(s: State): State {
    s.(updater := Updating(0, {}), latest := s.urls)
  }

  /** The effect of an event; one that is not possible changes nothing. */
  function Next(sources: Sources, s: State, ev: Event): State {
    match ev
    case AddUrl(id, url) =>
      if id in s.handlers then s else s.(configured := AddUnique(s.configured, url),
          handlers := s.handlers[id := Edited])
    case RemoveUrl(id, url) =>
      if id in s.handlers then s else s.(configured := Without(s.configured, url), handlers := s.handlers[id := Edited])
    case ReadBack(id) =>
      if id in s.handlers && s.handlers[id].Edited? then s.(handlers := s.handlers[id := Read(s.configured)]) else s
    case Publish(id) =>
      if id in s.handlers && s.handlers[id].Read? then s.(urls := s.handlers[id].urls,
          handlers := s.handlers[id := Published]) else s
    case Force(id) =>
      if id in s.handlers && s.handlers[id].Published? then s.(token := true, handlers := s.handlers - {id}) else s
    case Start => if s.updater.NotStarted? then StartUpdate(s) else s
    case Tick => if s.updater.Waiting? then StartUpdate(s) else s
    case TakeToken => if s.updater.Waiting? && s.token then StartUpdate(s.(token := false)) else s
    case ReadSource =>
      if s.updater.Updating? && s.updater.next < |s.latest|
      then s.(updater := Updating(s.updater.next + 1,
          s.updater.found + Members(SourceDomains(sources(s.latest[s.updater.next])))))
      else s
    case Install =>
      if s.updater.Updating? && s.updater.next == |s.latest| then s.(updater := Waiting,
          blocked := s.updater.found) else s
  }

  function Initial(urls: seq<string>): State {
    State(urls, urls, false, NotStarted, [], {}, map[])
  }

  function Run(sources: Sources, s: State, evs: seq<Event>): State {
    if evs == [] then s else Next(sources, Run(sources, s, evs[..|evs| - 1]), evs[|evs| - 1])
  }

  /** If the latest update works on other sources than the current ones, another is certain: none
      has started yet, a request for one waits, or a handler is about to make it. */
  ghost predicate NoLostRefresh(s: State) {
    s.urls != s.latest ==>
      s.updater.NotStarted? || s.token || exists id :: id in s.handlers && s.handlers[id].Published?
  }

  ghost predicate UpdateSound(sources: Sources, s: State) {
    match s.updater
    case NotStarted => true
    case Waiting => s.blocked == BlockedBy(sources, s.latest)
    case Updating(next, found) => next <= |s.latest| && found == BlockedBy(sources, s.latest[..next])
  }

  lemma {:induction false} NextKeeps(sources: Sources, s: State, ev: Event)
    requires NoLostRefresh(s) && UpdateSound(sources, s)
    ensures NoLostRefresh(Next(sources, s, ev)) && UpdateSound(sources, Next(sources, s, ev))
  {
    hide SourceDomains;
    var s' := Next(sources, s, ev);
    match ev
    case Publish(id) =>
      if id in s.handlers && s.handlers[id].Read? {
        assert s'.handlers[id].Published?;
      }
    case Force(_) =>
    case ReadSource =>
      if s.updater.Updating? && s.updater.next < |s.latest| {
        var next := s.updater.next;
        assert s.latest[..next + 1][..next] == s.latest[..next];
      }
    case Install =>
      assert s.latest[..|s.latest|] == s.latest;
    case _ =>
      if id :| id in s.handlers && s.handlers[id].Published? {
        assert s'.handlers[id].Published?;
      }
  }

  /** In every interleaving of handlers, ticks and updates no change of the sources goes without an
      update, and what is installed is what the latest update's sources list. */
  lemma {:induction false} RunKeeps(sources: Sources, urls: seq<string>, evs: seq<Event>)
    ensures var s := Run(sources, Initial(urls), evs); NoLostRefresh(s) && UpdateSound(sources, s)
  {
    hide Next;
    if evs != [] {
      RunKeeps(sources, urls, evs[..|evs| - 1]);
      NextKeeps(sources, Run(sources, Initial(urls), evs[..|evs| - 1]), evs[|evs| - 1]);
    }
  }

  predicate AtRest(s: State) {
    s.updater.Waiting? && !s.token && s.handlers == map[]
  }

  /** At rest a domain is blocked exactly when some current source lists it. */
  lemma {:induction false} RestBlocksListed(sources: Sources, urls: seq<string>, evs: seq<Event>, d: string)
    requires AtRest(Run(sources, Initial(urls), evs))
    ensures var s := Run(sources, Initial(urls), evs); d in s.blocked <==> Listed(sources, s.urls, d)
  {
    RunKeeps(sources, urls, evs);
    BlockedExact(sources, Run(sources, Initial(urls), evs).urls, d);
  }

  // From any state to rest.

  /** One update of the updater, from its cause to its installation. */
  function Update(cause: Event, n: nat): seq<Event> {
    [cause] + seq(n, _ => ReadSource) + [Install]
  }

  /** The event starts an update. */
  predicate Causes(s: State, cause: Event) {
    (cause == Start && s.updater.NotStarted?) || (cause == Tick && s.updater.Waiting?) ||
    (cause == TakeToken && s.updater.Waiting? && s.token)
  }

  lemma {:induction false} ReadSources(sources: Sources, s: State, n: nat)
    requires s.updater == Updating(0, {}) && n <= |s.latest|
    ensures Run(sources, s, seq(n, _ => ReadSource)) == s.(updater := Updating(n, BlockedBy(sources, s.latest[..n])))
  {
    hide SourceDomains, Members;
    if n > 0 {
      var evs: seq<Event> := seq(n, _ => ReadSource);
      assert evs[..n - 1] == seq(n - 1, _ => ReadSource);
      ReadSources(sources, s, n - 1);
      assert s.latest[..n][..n - 1] == s.latest[..n - 1];
    }
  }

  /** An update that nothing interrupts installs what the sources it started with list. */
  lemma {:induction false} WholeUpdate(sources: Sources, s: State, cause: Event)
    requires Causes(s, cause)
    ensures Run(sources, s, Update(cause, |s.urls|)) ==
            s.(updater := Waiting, latest := s.urls, token := s.token && cause != TakeToken,
               blocked := BlockedBy(sources, s.urls))
  {
    hide BlockedBy, Members, Run, Next;
    var readings: seq<Event> := seq(|s.urls|, _ => ReadSource);
    var begun := Next(sources, s, cause);
    UpdateBegins(sources, s, cause);
    UpdateEnds(sources, begun.(updater := Updating(|s.urls|, BlockedBy(sources, s.urls))));
    RunOne(sources, s, cause);
    ReadSources(sources, begun, |s.urls|);
    RunConcat(sources, s, [cause], readings);
    RunConcat(sources, s, [cause] + readings, [Install]);
    RunOne(sources, Run(sources, s, [cause] + readings), Install);
    assert s.urls[..|s.urls|] == s.urls;
  }

  lemma UpdateBegins(sources: Sources, s: State, cause: Event)
    requires Causes(s, cause)
    ensures Next(sources, s, cause) ==
            s.(updater := Updating(0, {}), latest := s.urls, token := s.token && cause != TakeToken)
  {
  }

  lemma UpdateEnds(sources: Sources, s: State)
    requires s.updater.Updating? && s.updater.next == |s.latest|
    ensures Next(sources, s, Install) == s.(updater := Waiting, blocked := s.updater.found)
  {
  }

  lemma UpdateIsRun(sources: Sources)
    ensures forall s, cause :: Causes(s, cause) ==>
              Run(sources, s, Update(cause, |s.urls|)) ==
                s.(updater := Waiting, latest := s.urls, token := s.token && cause != TakeToken,
                   blocked := BlockedBy(sources, s.urls))
  {
    hide Run;
    forall s, cause | Causes(s, cause)
      ensures Run(sources, s, Update(cause, |s.urls|)) ==
              s.(updater := Waiting, latest := s.urls, token := s.token && cause != TakeToken,
                 blocked := BlockedBy(sources, s.urls))
    {
      WholeUpdate(sources, s, cause);
    }
  }

  /** The updater's own steps; only a tick can make it work without being asked. */
  predicate Own(ev: Event) {
    ev == Start || ev == TakeToken || ev == ReadSource || ev == Install
  }

  /** The steps the updater can still make on its own, if the sources stay as they are. */
  function Work(s: State): nat {
    (if s.token then |s.urls| + 2 else 0) +
    match s.updater
    case NotStarted => |s.urls| + 2
    case Waiting => 0
    case Updating(next, _) => if next <= |s.latest| then |s.latest| - next + 1 else 0
  }

  /** The step of its own that the updater can make, if there is one. */
  function Due(s: State): Event {
    match s.updater
    case NotStarted => Start
    case Waiting => TakeToken
    case Updating(next, _) => if next < |s.latest| then ReadSource else Install
  }

  /** An own step changes nothing or uses up work, and as long as the updater has not come to rest
      one is possible. */
  lemma {:induction false} OwnStep(sources: Sources, s: State, ev: Event)
    requires Own(ev) && UpdateSound(sources, s)
    ensures var s' := Next(sources, s, ev);
            (s' == s || Work(s') < Work(s)) &&
            s'.urls == s.urls && s'.configured == s.configured && s'.handlers == s.handlers
    ensures !s.updater.Waiting? || s.token ==>
              Own(Due(s)) && Next(sources, s, Due(s)) != s && Work(Next(sources, s, Due(s))) < Work(s)
  {
    hide BlockedBy, Members, SourceDomains;
  }

  /** From every state reached, once no handler is about, the updater's own steps lead to rest on the
      sources then in use, and there are no more of them than stated. */
  lemma {:induction false} Settles(sources: Sources, urls: seq<string>, evs: seq<Event>) returns (more: seq<Event>)
    requires Run(sources, Initial(urls), evs).handlers == map[]
    ensures var s, s' := Run(sources, Initial(urls), evs), Run(sources, Initial(urls), evs + more);
            (forall ev :: ev in more ==> Own(ev)) && |more| <= Work(s) &&
            AtRest(s') && s'.urls == s.urls && s'.configured == s.configured
    decreases Work(Run(sources, Initial(urls), evs))
  {
    hide Next, Run, UpdateSound, Work, Due, NoLostRefresh;
    var s := Run(sources, Initial(urls), evs);
    if AtRest(s) {
      more := [];
      assert evs + more == evs;
    } else {
      RunKeeps(sources, urls, evs);
      OwnStep(sources, s, Start);
      RunConcat(sources, Initial(urls), evs, [Due(s)]);
      RunOne(sources, s, Due(s));
      OwnStep(sources, s, Due(s));
      var rest := Settles(sources, urls, evs + [Due(s)]);
      more := [Due(s)] + rest;
      assert evs + more == evs + [Due(s)] + rest;
    }
  }

  lemma RunOne(sources: Sources, s: State, ev: Event)
    ensures Run(sources, s, [ev]) == Next(sources, s, ev)
  {
    hide Next;
    assert [ev][..0] == [];
    assert Run(sources, s, []) == s;
  }

  // Published and configured sources.

  /** The event is a handler's publishing of what it has read. */
  predicate Publishes(s: State, ev: Event) {
    ev.Publish? && ev.id in s.handlers && s.handlers[ev.id].Read?
  }

  /** What was published last was configured when it was published. */
  ghost predicate LastFresh(sources: Sources, s: State, evs: seq<Event>) {
    evs == [] ||
    var before, last := Run(sources, s, evs[..|evs| - 1]), evs[|evs| - 1];
    if Publishes(before, last) then before.handlers[last.id].urls == before.configured
    else LastFresh(sources, s, evs[..|evs| - 1])
  }

  /** Some handler has yet to publish what it has edited. */
  ghost predicate Unpublished(s: State) {
    exists id :: id in s.handlers && !s.handlers[id].Published?
  }

  lemma NextUnpublished(sources: Sources, s: State, ev: Event)
    ensures var s' := Next(sources, s, ev);
            Unpublished(s') ||
            if Publishes(s, ev) then s'.urls == s.handlers[ev.id].urls && s'.configured == s.configured
            else !Unpublished(s) && s'.urls == s.urls && s'.configured == s.configured
  {
    var s' := Next(sources, s, ev);
    if Unpublished(s) && !Publishes(s, ev) {
      var id :| id in s.handlers && !s.handlers[id].Published?;
      assert id in s'.handlers && !s'.handlers[id].Published?;
    }
    match ev
    case AddUrl(id, _) => assert id !in s.handlers ==> s'.handlers[id] == Edited;
    case RemoveUrl(id, _) => assert id !in s.handlers ==> s'.handlers[id] == Edited;
    case ReadBack(id) => assert id in s.handlers && s.handlers[id].Edited? ==> s'.handlers[id].Read?;
    case _ =>
  }

  /** While no handler has yet to publish, and so at rest, the sources in use are the configured ones
      if and only if those published last were configured when they were published. */
  lemma {:induction false} RestUsesConfigured(sources: Sources, urls: seq<string>, evs: seq<Event>)
    ensures var s := Run(sources, Initial(urls), evs);
            AtRest(s) || !Unpublished(s) ==> (s.urls == s.configured <==> LastFresh(sources, Initial(urls), evs))
  {
    hide Next;
    if evs != [] {
      RestUsesConfigured(sources, urls, evs[..|evs| - 1]);
      NextUnpublished(sources, Run(sources, Initial(urls), evs[..|evs| - 1]), evs[|evs| - 1]);
    }
  }

  /** A handler that no other meets: its source is configured and in use, or is neither; the others stay
      as they were, and an update is asked for. */
  lemma {:induction false} HandlerAlone(sources: Sources, s: State, id: nat, url: string, adds: bool)
    requires s.handlers == map[]
    ensures var s' := Run(sources, s,
                [if adds then AddUrl(id, url) else RemoveUrl(id, url), ReadBack(id), Publish(id), Force(id)]);
            s'.urls == s'.configured && s'.token && s'.handlers == map[] && (url in s'.urls <==> adds) &&
            forall u :: u != url ==> (u in s'.urls <==> u in s.configured)
  {
    RunFour(sources, s, [if adds then AddUrl(id, url) else RemoveUrl(id, url), ReadBack(id), Publish(id), Force(id)]);
    hide Run, Without;
  }

  /** One handler reads the sources, a second adds another and publishes, and then the first
      publishes what it had read. */
  function RacingHandlers(a: string, b: string): seq<Event> {
    [AddUrl(0, a), ReadBack(0), AddUrl(1, b), ReadBack(1)] + [Publish(1), Publish(0), Force(1), Force(0)]
  }

  /** The first update, and the one asked for. */
  const UPDATE_TWICE: seq<Event> := [Start, ReadSource, Install] + [TakeToken, ReadSource, Install]

  /** Both handlers hold what they read: the first without the second's source. */
  predicate BothRead(s: State, a: string, b: string) {
    s.configured == [a, b] && s.urls == [] && s.updater.NotStarted? &&
    s.handlers.Keys == {0, 1} && s.handlers[0] == Read([a]) && s.handlers[1] == Read([a, b])
  }

  lemma HandlersRead(sources: Sources, a: string, b: string)
    requires a != b
    ensures BothRead(Run(sources, Initial([]), [AddUrl(0, a), ReadBack(0), AddUrl(1, b), ReadBack(1)]), a, b)
  {
    RunFour(sources, Initial([]), [AddUrl(0, a), ReadBack(0), AddUrl(1, b), ReadBack(1)]);
    assert AddUnique([], a) == [a] && AddUnique([a], b) == [a, b];
    hide Run, AddUnique, Without;
  }

  lemma HandlersPublish(sources: Sources, s: State, a: string, b: string)
    requires BothRead(s, a, b)
    ensures var s' := Run(sources, s, [Publish(1), Publish(0), Force(1), Force(0)]);
            s'.configured == [a, b] && s'.urls == [a] && s'.token && s'.updater.NotStarted? && s'.handlers == map[]
  {
    RunFour(sources, s, [Publish(1), Publish(0), Force(1), Force(0)]);
    hide Run, AddUnique, Without;
  }

  lemma UpdatesRun(sources: Sources, s: State)
    requires s.updater.NotStarted? && s.token && |s.urls| == 1
    ensures var s' := Run(sources, s, UPDATE_TWICE);
            s'.updater.Waiting? && !s'.token && s'.urls == s.urls && s'.configured == s.configured && s'.handlers ==
                s.handlers
  {
    hide Next, Run;
    assert Update(Start, 1) == [Start, ReadSource, Install] && Update(TakeToken, 1) == [TakeToken, ReadSource, Install];
    WholeUpdate(sources, s, Start);
    WholeUpdate(sources, Run(sources, s, Update(Start, 1)), TakeToken);
    RunConcat(sources, s, Update(Start, 1), Update(TakeToken, 1));
  }

  /** A run that publishes late: a source is configured and yet not in use at rest. */
  lemma {:induction false} PublicationRace(sources: Sources, a: string, b: string)
    requires a != b
    ensures var s := Run(sources, Initial([]), RacingHandlers(a, b) + UPDATE_TWICE);
            AtRest(s) && s.configured == [a, b] && s.urls == [a]
  {
    hide Next, Run, BothRead;
    var e1, e2 := [AddUrl(0, a), ReadBack(0), AddUrl(1, b), ReadBack(1)], [Publish(1), Publish(0), Force(1), Force(0)];
    HandlersRead(sources, a, b);
    HandlersPublish(sources, Run(sources, Initial([]), e1), a, b);
    RunConcat(sources, Initial([]), e1, e2);
    UpdatesRun(sources, Run(sources, Initial([]), e1 + e2));
    RunConcat(sources, Initial([]), e1 + e2, UPDATE_TWICE);
  }

  lemma {:induction false} RunConcat(sources: Sources, s: State, a: seq<Event>, b: seq<Event>)
    ensures Run(sources, s, a + b) == Run(sources, Run(sources, s, a), b)
    decreases |b|
  {
    hide Next;
    if b == [] {
      assert a + b == a;
    } else {
      assert (a + b)[..|a + b| - 1] == a + b[..|b| - 1];
      RunConcat(sources, s, a, b[..|b| - 1]);
    }
  }

  lemma RunThree(sources: Sources, s: State, evs: seq<Event>)
    requires |evs| == 3
    ensures Run(sources, s, evs) == Next(sources, Next(sources, Next(sources, s, evs[0]), evs[1]), evs[2])
  {
    hide Next;
    assert evs[..2][..1] == evs[..1] && evs[..1][..0] == [];
    assert Run(sources, s, []) == s && Run(sources, s, evs[..1]) == Next(sources, s, evs[0]);
    assert Run(sources, s, evs[..2]) == Next(sources, Next(sources, s, evs[0]), evs[1]);
  }

  lemma RunFour(sources: Sources, s: State, evs: seq<Event>)
    requires |evs| == 4
    ensures Run(sources, s, evs) == Next(sources,
        Next(sources, Next(sources, Next(sources, s, evs[0]), evs[1]), evs[2]), evs[3])
  {
    hide Next;
    RunThree(sources, s, evs[..3]);
  }
}
