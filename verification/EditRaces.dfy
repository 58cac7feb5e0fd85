/** API edits of one index side by side: a line changes the key set and the rules in separate steps,
    and the steps of different requests interleave. */
module EditRaces {
  import opened Options
  import opened DomainMatch
  import opened RuleConfig
  import opened RuleIndex
  import opened IndexRuns

  /** What a line in progress does next: ask the key set whether there is anything to do, change the
      key set, or change the rules. */
  datatype Stage = Asking(edit: Edit) | WritingKeys(edit: Edit) | WritingRules(edit: Edit)

  /** The global index, or the index of one list, and the lines in progress on it. */
  datatype State = State(x: Indexed, lines: map<nat, Stage>)

  datatype Event = Begin(id: nat, edit: Edit) | Step(id: nat)

  function WriteKeys(keys: set<string>, e: Edit): set<string> {
    match e
    case AddDomain(d) => keys + {d}
    case RemoveDomain(d) => keys - {d}
    case AddSuffix(s) => keys + {Dotted(s)}
    case RemoveSuffix(s) => keys - {s}
  }

  /** A global line asks before it changes anything; a list's line, only before it adds a key. */
  predicate Skips(global: bool, keys: set<string>, e: Edit) {
    if global then GlobalSkips(keys, e)
    else
      match e
      case AddDomain(d) => d in keys
      case AddSuffix(s) => SuffixKey(s) in keys
      case _ => false
  }

  /** The effect of an event; one that is not possible changes nothing. A global line changes the keys
      first, a list's line the rules. */
  function Next(global: bool, s: State, ev: Event): State {
    match ev
    case Begin(id, e) =>
      if id in s.lines then s else s.(lines := s.lines[id := if global then Asking(e) else WritingRules(e)])
    case Step(id) =>
      if id !in s.lines then s
      else
        match s.lines[id]
        case Asking(e) =>
          s.(lines := if Skips(global, s.x.keys, e) then s.lines - {id} else s.lines[id := WritingKeys(e)])
        case WritingKeys(e) =>
          State(s.x.(keys := WriteKeys(s.x.keys, e)),
                if global then s.lines[id := WritingRules(e)] else s.lines - {id})
        case WritingRules(e) =>
          State(s.x.(rules := EditRules(s.x.rules, e)),
                if global then s.lines - {id} else s.lines[id := Asking(e)])
  }

  function Run(global: bool, s: State, evs: seq<Event>): State {
    if evs == [] then s else Next(global, Run(global, s, evs[..|evs| - 1]), evs[|evs| - 1])
  }

  lemma RunFour(global: bool, s: State, evs: seq<Event>)
    requires |evs| == 4
    ensures Run(global, s, evs) ==
            Next(global, Next(global, Next(global, Next(global, s, evs[0]), evs[1]), evs[2]), evs[3])
  {
    hide Next;
    assert evs[..3][..2] == evs[..2] && evs[..2][..1] == evs[..1] && evs[..1][..0] == [];
    assert Run(global, s, []) == s && Run(global, s, evs[..1]) == Next(global, s, evs[0]);
    assert Run(global, s, evs[..2]) == Next(global, Next(global, s, evs[0]), evs[1]);
    assert Run(global, s, evs[..3]) == Next(global, Next(global, Next(global, s, evs[0]), evs[1]), evs[2]);
  }

  /** A line that is left alone has the effect of the edit made in one go. */
  lemma {:induction false} AloneIsEdit(global: bool, s: State, id: nat, e: Edit)
    requires id !in s.lines
    ensures Run(global, s, [Begin(id, e), Step(id), Step(id), Step(id)]) ==
            State(if global then GlobalEdit(s.x, e) else ListEdit(s.x, e), s.lines)
  {
    hide SuffixKey, Dotted, EditRules;
    RunFour(global, s, [Begin(id, e), Step(id), Step(id), Step(id)]);
    var begun := Next(global, s, Begin(id, e));
    var second := Next(global, begun, Step(id));
    var third := Next(global, second, Step(id));
    if global {
      if Skips(global, s.x.keys, e) {
        assert second == s;
      } else {
        assert second == State(s.x, s.lines[id := WritingKeys(e)]);
        assert third == State(s.x.(keys := WriteKeys(s.x.keys, e)), s.lines[id := WritingRules(e)]);
      }
    } else {
      var x := s.x.(rules := EditRules(s.x.rules, e));
      assert second == State(x, s.lines[id := Asking(e)]);
      if Skips(global, s.x.keys, e) {
        assert third == State(x, s.lines);
      } else {
        assert third == State(x, s.lines[id := WritingKeys(e)]);
      }
    }
  }

  // Rules and lines of the dotted form.

  /** A line of the form that is safe on its own. */
  predicate Plain(global: bool, e: Edit) {
    DottedLine(Line(if global then Global else InList(0), e))
  }

  predicate Adds(e: Edit) {
    e.AddDomain? || e.AddSuffix?
  }

  /** On such rules a line concerns one key, its own text. */
  lemma {:induction false} RulesConcern(global: bool, r: Rules, e: Edit)
    requires DottedRules(r) && Plain(global, e)
    ensures KeysOf(EditRules(r, e)) == if Adds(e) then KeysOf(r) + {e.line} else KeysOf(r) - {e.line}
    ensures DottedRules(EditRules(r, e))
  {
    hide SuffixKey;
    DottedStays(r, Line(if global then Global else InList(0), e));
    assert forall s :: s in r.suffixes ==> Dotted(s) == s;
    var after := KeysOf(EditRules(r, e));
    match e
    case AddDomain(d) =>
      assert forall t :: t in AddUnique(r.domains, d) <==> t in r.domains || t == d;
      assert after == KeysOf(r) + {d};
    case RemoveDomain(d) =>
      assert forall t :: t in after <==> (t in r.domains && t != d) || t in DottedSet(r.suffixes);
    case AddSuffix(s) =>
      DottedAdd(r.suffixes, s);
      assert after == KeysOf(r) + {s};
    case RemoveSuffix(s) =>
      DottedWithout(r.suffixes, s);
      assert forall t :: t in Without(r.suffixes, s) ==> Dotted(t) == t;
      assert forall t :: t in after <==> t in r.domains || t in DottedSet(Without(r.suffixes, s));
      assert s !in DottedSet(Without(r.suffixes, s));
  }

  lemma {:induction false} KeysConcern(global: bool, keys: set<string>, e: Edit)
    requires Plain(global, e)
    ensures WriteKeys(keys, e) == if Adds(e) then keys + {e.line} else keys - {e.line}
    ensures !global && Skips(global, keys, e) ==> Adds(e) && e.line in keys
  {
    hide SuffixKey;
  }

  ghost predicate AllPlain(global: bool, evs: seq<Event>) {
    forall ev :: ev in evs && ev.Begin? ==> Plain(global, ev.edit)
  }

  ghost predicate PlainState(global: bool, s: State) {
    DottedRules(s.x.rules) && forall id :: id in s.lines ==> Plain(global, s.lines[id].edit)
  }

  lemma {:induction false} NextPlain(global: bool, s: State, ev: Event)
    requires PlainState(global, s) && (ev.Begin? ==> Plain(global, ev.edit))
    ensures PlainState(global, Next(global, s, ev))
  {
    hide Plain, DottedRules, Skips, WriteKeys, EditRules;
    if ev.Step? && ev.id in s.lines {
      RulesConcern(global, s.x.rules, s.lines[ev.id].edit);
    }
  }

  // When no two lines in progress have the same text.

  ghost predicate InProgress(s: State, t: string) {
    exists id :: id in s.lines && s.lines[id].edit.line == t
  }

  /** No line begins while another line with the same text is in progress. */
  ghost predicate Apart(global: bool, s: State, evs: seq<Event>) {
    evs == [] ||
    var before, last := Run(global, s, evs[..|evs| - 1]), evs[|evs| - 1];
    Apart(global, s, evs[..|evs| - 1]) && (last.Begin? && last.id !in before.lines ==>
       !InProgress(before, last.edit.line))
  }

  predicate AgreeAt(x: Indexed, t: string) {
    t in x.keys <==> t in KeysOf(x.rules)
  }

  /** How far a line in progress has come with its text. */
  predicate Halfway(global: bool, x: Indexed, stage: Stage) {
    var t := stage.edit.line;
    if global then
      if stage.WritingRules? then t in x.keys <==> Adds(stage.edit) else AgreeAt(x, t)
    else
      if stage.WritingRules? then AgreeAt(x, t) else t in KeysOf(x.rules) <==> Adds(stage.edit)
  }

  /** Lines in progress have different texts, and everything else agrees. */
  ghost predicate Orderly(global: bool, s: State) {
    (forall i, j :: i in s.lines && j in s.lines && i != j ==> s.lines[i].edit.line != s.lines[j].edit.line) &&
    (forall id :: id in s.lines ==> Halfway(global, s.x, s.lines[id])) &&
    forall t :: InProgress(s, t) || AgreeAt(s.x, t)
  }

  /** What a step does to the keys and to the keys of the rules. */
  lemma {:induction false} StepConcerns(global: bool, s: State, id: nat)
    requires PlainState(global, s) && id in s.lines
    ensures var x, x', stage := s.x, Next(global, s, Step(id)).x, s.lines[id];
            var e := stage.edit;
            x'.keys == (if !stage.WritingKeys? then x.keys
                        else if Adds(e) then x.keys + {e.line} else x.keys - {e.line}) &&
            KeysOf(x'.rules) == (if !stage.WritingRules? then KeysOf(x.rules)
                                 else if Adds(e) then KeysOf(x.rules) + {e.line} else KeysOf(x.rules) - {e.line}) &&
            (!global && stage.Asking? && Skips(global, x.keys, e) ==> Adds(e) && e.line in x.keys)
  {
    hide Plain, DottedRules, Skips, WriteKeys, EditRules, KeysOf;
    RulesConcern(global, s.x.rules, s.lines[id].edit);
    KeysConcern(global, s.x.keys, s.lines[id].edit);
  }

  lemma StepOwn(global: bool, s: State, id: nat)
    requires PlainState(global, s) && id in s.lines && Halfway(global, s.x, s.lines[id])
    ensures var s' := Next(global, s, Step(id));
            if id in s'.lines then s'.lines[id].edit == s.lines[id].edit && Halfway(global, s'.x, s'.lines[id])
            else AgreeAt(s'.x, s.lines[id].edit.line)
  {
    hide Plain, DottedRules, Skips, WriteKeys, EditRules, KeysOf, Adds;
    StepConcerns(global, s, id);
  }

  lemma StepOther(global: bool, s: State, id: nat, t: string)
    requires PlainState(global, s) && id in s.lines && s.lines[id].edit.line != t
    ensures var s' := Next(global, s, Step(id));
            (AgreeAt(s'.x, t) <==> AgreeAt(s.x, t)) && (InProgress(s', t) <==> InProgress(s, t)) &&
            forall stage: Stage :: stage.edit.line == t ==>
              (Halfway(global, s'.x, stage) <==> Halfway(global, s.x, stage))
  {
    hide Plain, DottedRules, Skips, WriteKeys, EditRules, KeysOf, Adds;
    StepConcerns(global, s, id);
    var s' := Next(global, s, Step(id));
    if j :| j in s.lines && s.lines[j].edit.line == t {
      assert j in s'.lines && s'.lines[j].edit.line == t;
    }
    if j :| j in s'.lines && s'.lines[j].edit.line == t {
      assert j in s.lines && s.lines[j].edit.line == t;
    }
  }

  lemma {:induction false} NextOrderly(global: bool, s: State, ev: Event)
    requires PlainState(global, s) && Orderly(global, s)
    requires ev.Begin? && ev.id !in s.lines ==> !InProgress(s, ev.edit.line)
    ensures Orderly(global, Next(global, s, ev))
  {
    match ev
    case Begin(id, e) =>
      if id !in s.lines {
        BeginOrderly(global, s, id, e);
      }
    case Step(id) =>
      if id in s.lines {
        StepOrderly(global, s, id);
      }
  }

  lemma BeginOrderly(global: bool, s: State, id: nat, e: Edit)
    requires Orderly(global, s) && id !in s.lines && !InProgress(s, e.line)
    ensures Orderly(global, Next(global, s, Begin(id, e)))
  {
    hide KeysOf, AgreeAt;
    var s' := Next(global, s, Begin(id, e));
    assert s'.lines[id].edit == e;
    forall t | !InProgress(s', t)
      ensures AgreeAt(s'.x, t)
    {
      StillInProgress(s, s', t);
    }
  }

  lemma StepOrderly(global: bool, s: State, id: nat)
    requires PlainState(global, s) && Orderly(global, s) && id in s.lines
    ensures Orderly(global, Next(global, s, Step(id)))
  {
    hide PlainState, Skips, WriteKeys, EditRules, AgreeAt, Halfway;
    var s', own := Next(global, s, Step(id)), s.lines[id].edit.line;
    StepOwn(global, s, id);
    forall j | j in s'.lines && j != id
      ensures s'.lines[j] == s.lines[j] && Halfway(global, s'.x, s'.lines[j])
    {
      StepOther(global, s, id, s.lines[j].edit.line);
    }
    assert id in s'.lines ==> s'.lines[id].edit.line == own;
    forall t | !InProgress(s', t)
      ensures AgreeAt(s'.x, t)
    {
      if t != own {
        StepOther(global, s, id, t);
      }
    }
  }

  lemma StillInProgress(s: State, s': State, t: string)
    requires forall id :: id in s.lines ==> id in s'.lines && s'.lines[id] == s.lines[id]
    ensures InProgress(s, t) ==> InProgress(s', t)
  {
  }

  /** From agreement, in every interleaving in which no line begins while another with the same text is
      in progress, keys and rules agree on every text that is not in progress, and so at rest. */
  lemma {:induction false} ApartAgrees(global: bool, x: Indexed, evs: seq<Event>)
    requires Agrees(x) && DottedRules(x.rules) && AllPlain(global, evs) && Apart(global, State(x, map[]), evs)
    ensures var s := Run(global, State(x, map[]), evs);
            PlainState(global, s) && Orderly(global, s) && (s.lines == map[] ==> Agrees(s.x))
  {
    hide Next, Plain, DottedRules, KeysOf, Halfway, Agrees, AgreeAt;
    var start := State(x, map[]);
    if evs != [] {
      var front, last := evs[..|evs| - 1], evs[|evs| - 1];
      assert last in evs;
      ApartAgrees(global, x, front);
      NextPlain(global, Run(global, start, front), last);
      NextOrderly(global, Run(global, start, front), last);
    }
    var s := Run(global, start, evs);
    AgreesEverywhere(x);
    AgreesEverywhere(s.x);
    if s.lines == map[] {
      assert forall t :: !InProgress(s, t);
    }
  }

  lemma AgreesEverywhere(x: Indexed)
    ensures Agrees(x) <==> forall t :: AgreeAt(x, t)
  {
    hide KeysOf;
    if forall t :: AgreeAt(x, t) {
      forall t
        ensures t in x.keys <==> t in KeysOf(x.rules)
      {
        assert AgreeAt(x, t);
      }
    }
  }

  // The exact condition.

  /** The event settles the key of the text: it writes it, or a list's line finds it there. */
  predicate SettlesKey(global: bool, s: State, ev: Event, t: string) {
    ev.Step? && ev.id in s.lines && s.lines[ev.id].edit.line == t &&
    (s.lines[ev.id].WritingKeys? ||
     (!global && s.lines[ev.id].Asking? && Skips(global, s.x.keys, s.lines[ev.id].edit)))
  }

  predicate SettlesRule(s: State, ev: Event, t: string) {
    ev.Step? && ev.id in s.lines && s.lines[ev.id].edit.line == t && s.lines[ev.id].WritingRules?
  }

  /** Whether the line that settled the key of the text last adds it. */
  function LastKey(global: bool, s: State, evs: seq<Event>, t: string): Option<bool> {
    if evs == [] then None
    else
      var before, last := Run(global, s, evs[..|evs| - 1]), evs[|evs| - 1];
      if SettlesKey(global, before, last, t) then Some(Adds(before.lines[last.id].edit))
      else LastKey(global, s, evs[..|evs| - 1], t)
  }

  function LastRule(global: bool, s: State, evs: seq<Event>, t: string): Option<bool> {
    if evs == [] then None
    else
      var before, last := Run(global, s, evs[..|evs| - 1]), evs[|evs| - 1];
      if SettlesRule(before, last, t) then Some(Adds(before.lines[last.id].edit))
      else LastRule(global, s, evs[..|evs| - 1], t)
  }

  /** The line that settled the key of the text last and the line that settled its rule last both add
      it, or both remove it; or there is none of either. */
  predicate SettledAlike(global: bool, s: State, evs: seq<Event>, t: string) {
    LastKey(global, s, evs, t) == LastRule(global, s, evs, t)
  }

  /** A line that has made the first of its two changes. */
  predicate Begun(global: bool, stage: Stage) {
    if global then stage.WritingRules? else !stage.WritingRules?
  }

  ghost predicate BegunOn(global: bool, s: State, t: string) {
    exists id :: id in s.lines && s.lines[id].edit.line == t && Begun(global, s.lines[id])
  }

  /** The keys are as the last lines to settle them left them, and no text has seen one change alone
      unless a line is about to make the other. */
  ghost predicate Tracked(global: bool, x: Indexed, s: State, key: Option<bool>, rule: Option<bool>, t: string) {
    var first, second := if global then key else rule, if global then rule else key;
    (t in s.x.keys <==> if key.Some? then key.value else t in x.keys) &&
    (t in KeysOf(s.x.rules) <==> if rule.Some? then rule.value else t in x.keys) &&
    (second.Some? || BegunOn(global, s, t) ==> first.Some?) &&
    (first.Some? && second.None? ==> BegunOn(global, s, t))
  }

  lemma {:induction false} NextTracked(global: bool, x: Indexed, s: State, ev: Event, key: Option<bool>,
      rule: Option<bool>, t: string)
    requires PlainState(global, s) && Tracked(global, x, s, key, rule, t)
    ensures var key' := if SettlesKey(global, s, ev, t) then Some(Adds(s.lines[ev.id].edit)) else key;
            var rule' := if SettlesRule(s, ev, t) then Some(Adds(s.lines[ev.id].edit)) else rule;
            Tracked(global, x, Next(global, s, ev), key', rule', t)
  {
    hide Plain, DottedRules, Skips, WriteKeys, EditRules, KeysOf, Adds;
    var s' := Next(global, s, ev);
    match ev
    case Begin(id, e) =>
      BegunStays(global, s, s', id, t);
    case Step(id) =>
      if id in s.lines {
        StepConcerns(global, s, id);
        BegunStays(global, s, s', id, t);
        if id in s'.lines && s'.lines[id].edit.line == t && Begun(global, s'.lines[id]) {
          assert BegunOn(global, s', t);
        }
      }
  }

  /** A step of one line does not change how far the others are. */
  lemma BegunStays(global: bool, s: State, s': State, id: nat, t: string)
    requires s'.lines - {id} == s.lines - {id}
    ensures BegunOn(global, s', t) && !BegunOn(global, s, t) ==>
              id in s'.lines && s'.lines[id].edit.line == t && Begun(global, s'.lines[id])
    ensures BegunOn(global, s, t) && !BegunOn(global, s', t) ==>
              id in s.lines && s.lines[id].edit.line == t && Begun(global, s.lines[id])
  {
    if j :| j in s'.lines && s'.lines[j].edit.line == t && Begun(global, s'.lines[j]) {
      assert j != id ==> j in s'.lines - {id} && (s'.lines - {id})[j] == (s.lines - {id})[j] == s.lines[j];
    }
    if j :| j in s.lines && s.lines[j].edit.line == t && Begun(global, s.lines[j]) {
      assert j != id ==> j in s.lines - {id} && (s.lines - {id})[j] == (s'.lines - {id})[j] == s'.lines[j];
    }
  }

  lemma {:induction false} RunTracked(global: bool, x: Indexed, evs: seq<Event>, t: string)
    requires Agrees(x) && DottedRules(x.rules) && AllPlain(global, evs)
    ensures var start := State(x, map[]);
            var s := Run(global, start, evs);
            PlainState(global, s) &&
            Tracked(global, x, s, LastKey(global, start, evs, t), LastRule(global, start, evs, t), t)
  {
    hide Next, Plain, DottedRules, KeysOf, SettlesKey, SettlesRule, Adds, Tracked;
    var start := State(x, map[]);
    if evs == [] {
      assert Tracked(global, x, start, None, None, t) by { StartTracked(global, x, t); }
    } else {
      var front, last := evs[..|evs| - 1], evs[|evs| - 1];
      assert last in evs;
      RunTracked(global, x, front, t);
      NextPlain(global, Run(global, start, front), last);
      NextTracked(global, x, Run(global, start, front), last, LastKey(global, start, front, t),
                  LastRule(global, start, front, t), t);
    }
  }

  lemma StartTracked(global: bool, x: Indexed, t: string)
    requires Agrees(x)
    ensures Tracked(global, x, State(x, map[]), None, None, t)
  {
  }

  lemma SettledExact(global: bool, x: Indexed, evs: seq<Event>, t: string)
    requires Agrees(x) && DottedRules(x.rules) && AllPlain(global, evs)
    requires Run(global, State(x, map[]), evs).lines == map[]
    ensures AgreeAt(Run(global, State(x, map[]), evs).x, t) <==> SettledAlike(global, State(x, map[]), evs, t)
  {
    hide KeysOf, LastKey, LastRule, Run, AllPlain, DottedRules;
    RunTracked(global, x, evs, t);
  }

  /** From agreement, in every interleaving of such lines: at rest keys and rules agree if and only if
      for every text the line that settled its key last does the same as the line that settled its rule
      last. */
  lemma {:induction false} RestAgreesExact(global: bool, x: Indexed, evs: seq<Event>)
    requires Agrees(x) && DottedRules(x.rules) && AllPlain(global, evs)
    requires Run(global, State(x, map[]), evs).lines == map[]
    ensures Agrees(Run(global, State(x, map[]), evs).x) <==>
            forall t :: SettledAlike(global, State(x, map[]), evs, t)
  {
    hide SettledAlike, Run, AllPlain, DottedRules, Agrees, AgreeAt;
    var s := Run(global, State(x, map[]), evs);
    AgreesEverywhere(s.x);
    forall t
      ensures AgreeAt(s.x, t) <==> SettledAlike(global, State(x, map[]), evs, t)
    {
      SettledExact(global, x, evs, t);
    }
  }

  lemma RaceBegins(d: string)
    ensures Run(true, State(Indexed({}, Rules([], [])), map[]),
                [Begin(0, AddDomain(d)), Step(0), Step(0), Begin(1, RemoveDomain(d))]) ==
            State(Indexed({d}, Rules([], [])), map[0 := WritingRules(AddDomain(d)), 1 := Asking(RemoveDomain(d))])
  {
    RunFour(true, State(Indexed({}, Rules([], [])), map[]),
            [Begin(0, AddDomain(d)), Step(0), Step(0), Begin(1, RemoveDomain(d))]);
    hide Run;
  }

  /** A global request adds a domain while another deletes it: the rule stays without its key. */
  lemma {:induction false} AddMeetsDelete(d: string)
    ensures var start := State(Indexed({}, Rules([], [])), map[]);
            var s := Run(true, start, [Begin(0, AddDomain(d)), Step(0), Step(0), Begin(1, RemoveDomain(d))] +
                [Step(1), Step(1), Step(1), Step(0)]);
            Agrees(start.x) && s == State(Indexed({}, Rules([d], [])), map[]) && !Agrees(s.x)
  {
    var start := State(Indexed({}, Rules([], [])), map[]);
    RaceBegins(d);
    var s1 := State(Indexed({d}, Rules([], [])), map[0 := WritingRules(AddDomain(d)), 1 := Asking(RemoveDomain(d))]);
    RunFour(true, s1, [Step(1), Step(1), Step(1), Step(0)]);
    RunConcat(true, start, [Begin(0, AddDomain(d)), Step(0), Step(0), Begin(1, RemoveDomain(d))],
              [Step(1), Step(1), Step(1), Step(0)]);
    hide Run;
    assert Without([], d) == [];
    assert d in [d] && d in KeysOf(Rules([d], []));
  }

  lemma {:induction false} RunConcat(global: bool, s: State, a: seq<Event>, b: seq<Event>)
    ensures Run(global, s, a + b) == Run(global, Run(global, s, a), b)
    decreases |b|
  {
    hide Next;
    if b == [] {
      assert a + b == a;
    } else {
      assert (a + b)[..|a + b| - 1] == a + b[..|b| - 1];
      RunConcat(global, s, a, b[..|b| - 1]);
    }
  }

  lemma ListRaceBegins(d: string)
    ensures Run(false, State(Indexed({}, Rules([], [])), map[]),
                [Begin(0, AddDomain(d)), Step(0), Begin(1, RemoveDomain(d)), Step(1)]) ==
            State(Indexed({}, Rules([], [])), map[0 := Asking(AddDomain(d)), 1 := Asking(RemoveDomain(d))])
  {
    RunFour(false, State(Indexed({}, Rules([], [])), map[]),
            [Begin(0, AddDomain(d)), Step(0), Begin(1, RemoveDomain(d)), Step(1)]);
    hide Run;
    assert [d][..0] == [] && Without([], d) == [] && Without([d], d) == [];
  }

  /** The same for a list, whose lines change the rules first: the key stays without its rule. */
  lemma {:induction false} ListAddMeetsDelete(d: string)
    ensures var start := State(Indexed({}, Rules([], [])), map[]);
            var s := Run(false, start, [Begin(0, AddDomain(d)), Step(0), Begin(1, RemoveDomain(d)), Step(1)] +
                [Step(1), Step(1), Step(0), Step(0)]);
            s == State(Indexed({d}, Rules([], [])), map[]) && !Agrees(s.x)
  {
    var start := State(Indexed({}, Rules([], [])), map[]);
    ListRaceBegins(d);
    var s1 := State(Indexed({}, Rules([], [])), map[0 := Asking(AddDomain(d)), 1 := Asking(RemoveDomain(d))]);
    RunFour(false, s1, [Step(1), Step(1), Step(0), Step(0)]);
    RunConcat(false, start, [Begin(0, AddDomain(d)), Step(0), Begin(1, RemoveDomain(d)), Step(1)],
              [Step(1), Step(1), Step(0), Step(0)]);
    hide Run;
    assert d !in KeysOf(Rules([], []));
  }
}
