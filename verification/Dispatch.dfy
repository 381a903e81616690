/** Strict notification dispatch: everything is validated before the first delivery, and the
    deliveries follow the selected names and their handlers in order until one fails. */
module Dispatch {
  import opened Documents
  import opened Outcomes

  /** A handler, by number; a legacy-only one does not implement send. */
  datatype Handler = Handler(id: nat, sends: bool)

  /** A loaded notification: its configuration, and the text of its template if it has one. */
  datatype Notification = Notification(cfg: Document, tpl: Option<string>,
                                       enabled: bool, tags: set<string>, handlers: seq<Handler>)

  datatype Reply = Ack(value: string) | Falsy | Raises

  datatype Error =
    | InvalidNames | InvalidTags
    | Unknown(name: string) | NoHandler(name: string) | NoSend(name: string) | NothingSelected
    | RenderFailed(name: string) | HandlerRaised(name: string, id: nat) | NotAcknowledged(name: string, id: nat)

  /** One delivery: what the handler was given, and how it answered. */
  datatype Delivery = Delivery(name: string, id: nat, cfg: Tree, tpl: Option<Tree>, nvars: Tree, reply: Reply)

  predicate TagChar(c: char) {
    'a' <= c <= 'z' || 'A' <= c <= 'Z' || '0' <= c <= '9'
  }

  predicate ValidTag(t: string) {
    && 3 <= |t| <= 31 && TagChar(t[0]) && TagChar(t[|t| - 1])
    && forall i :: 0 <= i < |t| ==> TagChar(t[i]) || t[i] == '_' || t[i] == '-' || t[i] == '.'
  }

  /** [a-zA-Z0-9][a-zA-Z0-9_\-\.]{1,29}[a-zA-Z0-9] */
  lemma ValidTagExact(t: string)
    ensures ValidTag(t) <==>
              && 2 <= |t| && 1 <= |t[1..|t| - 1]| <= 29
              && (forall i :: 0 <= i < |t| ==>
                    || 'a' <= t[i] <= 'z' || 'A' <= t[i] <= 'Z' || '0' <= t[i] <= '9'
                    || (0 < i < |t| - 1 && t[i] in "_-."))
  {
  }

  class DWhoPushNotifications {
    const notifications: map<string, Notification>
    /** Rendering a notification's address, or its template, with the variables, or failing
        to; and how the n-th delivery is answered. All are arbitrary. */
    const render: (string, Tree) -> Option<string>
    const renderTpl: (string, Tree) -> Option<map<string, Tree>>
    const answer: nat -> Reply
    var deliveries: seq<Delivery>
    /** Every mapping a handler was ever given; it may have kept it. */
    ghost var handed: set<Document>

    /** The mappings the stored configurations are made of. */
    ghost function Held(): set<Document>
      reads set name | name in notifications :: notifications[name].cfg
    {
      set name, o | name in notifications && o in notifications[name].cfg.Repr :: o
    }

    /** No handler holds any part of a stored configuration. */
    ghost predicate Valid()
      reads this, (set name | name in notifications :: notifications[name].cfg), Held()
    {
      && (forall name :: name in notifications ==> notifications[name].cfg.Valid())
      && handed !! Held()
    }

    /** The stored configurations, by value. */
    ghost function Stored(): (stored: map<string, Tree>)
      requires Valid()
      ensures stored.Keys == notifications.Keys
      reads this, (set name | name in notifications :: notifications[name].cfg), Held()
    {
      map name | name in notifications :: notifications[name].cfg.Value()
    }

    constructor (notifications: map<string, Notification>, render: (string, Tree) -> Option<string>,
                 renderTpl: (string, Tree) -> Option<map<string, Tree>>, answer: nat -> Reply)
      requires forall name :: name in notifications ==> notifications[name].cfg.Valid()
      ensures Valid() && this.notifications == notifications && deliveries == [] && handed == {}
      ensures this.render == render && this.renderTpl == renderTpl && this.answer == answer
    {
      this.notifications, this.render, this.renderTpl, this.answer := notifications, render, renderTpl, answer;
      deliveries := [];
      handed := {};
    }

    // ---- selection

    /** Tags choose a notification: `always` in its own, `all` against `never`, or a shared one. */
    predicate Tagged(name: string, tags: set<string>)
      requires name in notifications
    {
      var own := notifications[name].tags;
      "always" in own || ("all" in tags && "never" in own) || tags * own != {}
    }

    predicate Chosen(name: string, tags: set<string>) {
      name in notifications && notifications[name].enabled && Tagged(name, tags)
    }

    predicate Strict(name: string) {
      && name in notifications && notifications[name].handlers != []
      && forall i :: 0 <= i < |notifications[name].handlers| ==> notifications[name].handlers[i].sends
    }

    function ChosenOf(names: seq<string>, tags: set<string>): seq<string> {
      if names == [] then []
      else (if Chosen(names[0], tags) then [names[0]] else []) + ChosenOf(names[1..], tags)
    }

    /** Every name is known, every chosen one has handlers that can all send, and there is one. */
    ghost predicate Acceptable(names: seq<string>, tags: set<string>) {
      && (forall i :: 0 <= i < |names| ==> names[i] in notifications && (Chosen(names[i], tags) ==> Strict(names[i])))
      && ChosenOf(names, tags) != []
    }

    /** What each refusal says. */
    ghost predicate Refused(e: Error, names: seq<string>, tags: set<string>) {
      match e
      case Unknown(name) => name in names && name !in notifications
      case NoHandler(name) => Chosen(name, tags) && notifications[name].handlers == []
      case NoSend(name) => Chosen(name, tags) && !Strict(name)
      case NothingSelected => ChosenOf(names, tags) == []
      case _ => false
    }

    /** Which tags choose a notification: `always` chooses it whatever is asked for, each of its
        own tags when that is asked for, and `all` also those tagged `never`. */
    lemma TagsDecide(name: string, s: set<string>, t: set<string>)
      requires name in notifications
      ensures var own := notifications[name].tags;
              && (Tagged(name, {}) <==> "always" in own)
              && (forall tag :: Tagged(name, {tag}) <==>
                                  "always" in own || tag in own || (tag == "all" && "never" in own))
      ensures Tagged(name, s + t) <==> Tagged(name, s) || Tagged(name, t)
    {
      var own := notifications[name].tags;
      assert {} * own == {};
      forall tag ensures {tag} * own != {} <==> tag in own {
        assert tag in own ==> tag in {tag} * own;
      }
      forall tag ensures tag in (s + t) * own <==> tag in s * own || tag in t * own {
      }
      assert (s + t) * own == s * own + t * own;
    }

    /** A selection is accepted exactly if every name is known, one at least is chosen, and each
        one chosen has a handler, none of which is a legacy one. */
    lemma AcceptableExact(names: seq<string>, tags: set<string>)
      ensures Acceptable(names, tags) <==>
                && (forall n :: n in names ==> n in notifications)
                && (exists n :: n in names && Chosen(n, tags))
                && (forall n :: n in names && Chosen(n, tags) ==>
                                  && notifications[n].handlers != []
                                  && forall h :: h in notifications[n].handlers ==> h.sends)
      ensures forall n :: n in ChosenOf(names, tags) <==> n in names && Chosen(n, tags)
    {
      hide Tagged;
      forall n ensures n in ChosenOf(names, tags) <==> n in names && Chosen(n, tags) {
        ChosenMember(names, tags, n);
      }
      if ChosenOf(names, tags) != [] {
        assert ChosenOf(names, tags)[0] in ChosenOf(names, tags);
      }
      assert forall i :: 0 <= i < |names| ==> names[i] in names;
    }

    lemma {:induction false} ChosenMember(names: seq<string>, tags: set<string>, n: string)
      ensures n in ChosenOf(names, tags) <==> n in names && Chosen(n, tags)
    {
      hide Chosen;
      if names != [] {
        ChosenMember(names[1..], tags, n);
        assert names == [names[0]] + names[1..];
      }
    }

    lemma {:induction false} ChosenSnoc(names: seq<string>, name: string, tags: set<string>)
      ensures ChosenOf(names + [name], tags) == ChosenOf(names, tags) + (if Chosen(name, tags) then [name] else [])
    {
      hide Chosen;
      if names == [] {
        assert names + [name] == [name];
        assert [name][1..] == [];
      } else {
        assert (names + [name])[1..] == names[1..] + [name];
        ChosenSnoc(names[1..], name, tags);
      }
    }

    method Select(names: seq<string>, tags: set<string>) returns (r: Result<seq<string>, Error>)
      ensures r.Ok? <==> Acceptable(names, tags)
      ensures r.Ok? ==> r.value == ChosenOf(names, tags)
      ensures r.Err? ==> Refused(r.error, names, tags)
    {
      var selected := [];
      for i := 0 to |names|
        invariant selected == ChosenOf(names[..i], tags)
        invariant forall j :: 0 <= j < i ==> names[j] in notifications && (Chosen(names[j], tags) ==> Strict(names[j]))
      {
        var name := names[i];
        assert names[..i + 1] == names[..i] + [name];
        ChosenSnoc(names[..i], name, tags);
        if name !in notifications {
          return Err(Unknown(name));
        }
        var notification := notifications[name];
        if !notification.enabled || !Tagged(name, tags) {
          continue;
        }
        if notification.handlers == [] {
          return Err(NoHandler(name));
        }
        for j := 0 to |notification.handlers|
          invariant forall k :: 0 <= k < j ==> notification.handlers[k].sends
        {
          if !notification.handlers[j].sends {
            return Err(NoSend(name));
          }
        }
        selected := selected + [name];
      }
      assert names[..|names|] == names;
      if selected == [] {
        return Err(NothingSelected);
      }
      return Ok(selected);
    }

    // ---- what should be delivered

    /** Name by name and handler by handler. */
    function Plan(selected: seq<string>): seq<(string, nat)>
      requires forall i :: 0 <= i < |selected| ==> selected[i] in notifications
    {
      if selected == [] then []
      else Calls(selected[0], notifications[selected[0]].handlers) + Plan(selected[1..])
    }

    static function Calls(name: string, handlers: seq<Handler>): (calls: seq<(string, nat)>)
      ensures |calls| == |handlers|
    {
      seq(|handlers|, i requires 0 <= i < |handlers| => (name, handlers[i].id))
    }

    lemma {:induction false} PlanSnoc(selected: seq<string>, name: string)
      requires name in notifications && forall i :: 0 <= i < |selected| ==> selected[i] in notifications
      ensures Plan(selected + [name]) == Plan(selected) + Calls(name, notifications[name].handlers)
    {
      hide Calls;
      if selected == [] {
        assert selected + [name] == [name];
        assert [name][1..] == [];
      } else {
        assert (selected + [name])[1..] == selected[1..] + [name];
        PlanSnoc(selected[1..], name);
      }
    }

    lemma {:induction false} PlanPrefix(selected: seq<string>, i: nat)
      requires i <= |selected| && forall k :: 0 <= k < |selected| ==> selected[k] in notifications
      ensures Plan(selected[..i]) <= Plan(selected)
    {
      hide Calls;
      if i == 0 {
        assert selected[..0] == [];
      } else {
        assert selected[..i][1..] == selected[1..][..i - 1];
        PlanPrefix(selected[1..], i - 1);
      }
    }

    /** The variables of a run: the caller's, a copy of them all, and the notification's name. */
    function NamedVars(vars: Tree, name: string): Tree
      requires vars.Node?
    {
      Node(vars.items["_VARS_" := vars]["_NAME_" := Leaf(name)])
    }

    /** The stored configuration with its address rendered, if it has one that can be. */
    function Configured(name: string, stored: Tree, vars: Tree): Option<Tree>
      requires vars.Node?
    {
      if Address(stored).None? then None
      else
        match render(Address(stored).value, NamedVars(vars, name))
        case None => None
        case Some(uri) =>
          var general := stored.items["general"];
          Some(Node(stored.items["general" := Node(general.items["uri" := Leaf(uri)])]))
    }

    /** cfg['general']['uri'] */
    static function Address(cfg: Tree): (uri: Option<string>)
      ensures uri.Some? ==> cfg.Node? && "general" in cfg.items && cfg.items["general"].Node?
    {
      if cfg.Node? && "general" in cfg.items && cfg.items["general"].Node?
         && "uri" in cfg.items["general"].items && cfg.items["general"].items["uri"].Leaf?
      then Some(cfg.items["general"].items["uri"].text) else None
    }

    /** The rendered template, if there is one; None if it cannot be rendered. */
    function Templated(name: string, vars: Tree): Option<Option<Tree>>
      requires name in notifications && vars.Node?
    {
      match notifications[name].tpl
      case None => Some(None)
      case Some(text) =>
        match renderTpl(text, NamedVars(vars, name))
        case None => None
        case Some(items) => Some(Some(Node(items)))
    }

    /** The rendered configuration is the stored one but for its address, which is the rendering
        of the stored address; there is none if that is missing or cannot be rendered. */
    lemma ConfiguredExact(name: string, stored: map<string, Tree>, general: map<string, Tree>, vars: Tree)
      requires vars.Node? && "general" in stored && stored["general"] == Node(general)
      ensures Configured(name, Node(stored), vars).Some? <==>
                "uri" in general && general["uri"].Leaf? && render(general["uri"].text, NamedVars(vars, name)).Some?
      ensures Configured(name, Node(stored), vars).Some? ==>
                var c := Configured(name, Node(stored), vars).value;
                && c.Node? && c.items.Keys == stored.Keys
                && (forall k :: k in stored && k != "general" ==> c.items[k] == stored[k])
                && c.items["general"].Node? && c.items["general"].items.Keys == general.Keys
                && (forall k :: k in general && k != "uri" ==> c.items["general"].items[k] == general[k])
                && c.items["general"].items["uri"].Leaf?
                && render(general["uri"].text, NamedVars(vars, name)) == Some(c.items["general"].items["uri"].text)
    {
    }

    /** The variables are the caller's, with the name of the notification, and all of the
        caller's once more under one name. */
    lemma NamedVarsExact(vars: Tree, name: string)
      requires vars.Node?
      ensures var items := NamedVars(vars, name).items;
              && items.Keys == vars.items.Keys + {"_NAME_", "_VARS_"}
              && items["_NAME_"] == Leaf(name) && items["_VARS_"] == vars
              && forall k :: k in vars.items && k != "_NAME_" && k != "_VARS_" ==> items[k] == vars.items[k]
    {
    }

    ghost predicate Unrenderable(name: string, stored: map<string, Tree>, vars: Tree) {
      && name in notifications && name in stored && vars.Node?
      && (Configured(name, stored[name], vars) == None || Templated(name, vars) == None)
    }

    /** The run got to `name`, after everything planned before it, and could not render it. */
    ghost predicate StuckAt(name: string, selected: seq<string>, made: seq<Delivery>,
                            stored: map<string, Tree>, vars: Tree)
      requires forall i :: 0 <= i < |selected| ==> selected[i] in notifications
    {
      && Unrenderable(name, stored, vars)
      && exists i :: 0 <= i < |selected| && selected[i] == name && |made| == |Plan(selected[..i])|
    }

    /** Delivery `d` goes where the plan says, with the stored configuration, the template and
        the original variables, whatever handlers did to what they were given before. */
    ghost predicate AsPlanned(d: Delivery, call: (string, nat), stored: map<string, Tree>, vars: Tree)
      requires vars.Node?
    {
      && d.name == call.0 && d.id == call.1
      && call.0 in stored && call.0 in notifications
      && Some(d.cfg) == Configured(call.0, stored[call.0], vars)
      && Some(d.tpl) == Templated(call.0, vars)
      && d.nvars == NamedVars(vars, call.0)
    }

    ghost predicate FollowsPlan(made: seq<Delivery>, plan: seq<(string, nat)>, stored: map<string, Tree>, vars: Tree)
      requires vars.Node?
    {
      |made| <= |plan| && forall k :: 0 <= k < |made| ==> AsPlanned(made[k], plan[k], stored, vars)
    }

    lemma FollowsOne(made: seq<Delivery>, d: Delivery, plan: seq<(string, nat)>, stored: map<string, Tree>, vars: Tree)
      requires vars.Node? && FollowsPlan(made, plan, stored, vars)
      requires |made| < |plan| && AsPlanned(d, plan[|made|], stored, vars)
      ensures FollowsPlan(made + [d], plan, stored, vars)
    {
      hide AsPlanned;
    }

    static predicate AllAcknowledged(made: seq<Delivery>) {
      forall k :: 0 <= k < |made| ==> made[k].reply.Ack?
    }

    /** Replies by name, in delivery order. */
    static function Collected(made: seq<Delivery>): map<string, seq<string>>
      requires AllAcknowledged(made)
    {
      if made == [] then map[]
      else
        var before := Collected(made[..|made| - 1]);
        var d := made[|made| - 1];
        before[d.name := (if d.name in before then before[d.name] else []) + [d.reply.value]]
    }

    static function RepliesOf(made: seq<Delivery>, name: string): seq<string>
      requires AllAcknowledged(made)
    {
      if made == [] then []
      else
        var d := made[|made| - 1];
        RepliesOf(made[..|made| - 1], name) + if d.name == name then [d.reply.value] else []
    }

    /** The collected results hold, for each name delivered to, exactly its replies in order. */
    static lemma {:induction false} CollectedReplies(made: seq<Delivery>, name: string)
      requires AllAcknowledged(made)
      ensures name in Collected(made) <==> RepliesOf(made, name) != []
      ensures name in Collected(made) ==> Collected(made)[name] == RepliesOf(made, name)
    {
      if made != [] {
        CollectedReplies(made[..|made| - 1], name);
      }
    }

    /** A handler's send: it may do anything to the three documents it is given, at any depth,
        and to all that it or any other handler was ever given before. */
    method Deliver(name: string, id: nat, cfg: Document, tpl: Document?, nvars: Document) returns (reply: Reply)
      requires cfg.Valid() && nvars.Valid() && (tpl != null ==> tpl.Valid())
      modifies this`deliveries, this`handed, handed, cfg.Repr, ReprOf(tpl), nvars.Repr
      ensures reply == answer(|old(deliveries)|)
      ensures deliveries
              == old(deliveries) + [Delivery(name, id, old(cfg.Value()), old(ValueOf(tpl)), old(nvars.Value()), reply)]
      ensures handed == old(handed + cfg.Repr + ReprOf(tpl) + nvars.Repr)
    {
      reply := answer(|deliveries|);
      deliveries := deliveries + [Delivery(name, id, cfg.Value(), ValueOf(tpl), nvars.Value(), reply)];
      handed := handed + cfg.Repr + ReprOf(tpl) + nvars.Repr;
      modify handed;
    }

    /** A document no part of which any handler was given. */
    ghost predicate Private(d: Document)
      reads this, d, d.Repr
    {
      d.Valid() && d.Repr !! handed
    }

    /** What is stored is as it was, in the mappings it was in, and still nobody's but ours. */
    twostate predicate Kept()
      requires old(Valid())
      reads this, (set name | name in notifications :: notifications[name].cfg), Held()
    {
      Valid() && Stored() == old(Stored()) && Held() == old(Held()) && fresh(handed - old(handed))
    }

    twostate lemma OneUntouched(name: string)
      requires old(Valid()) && name in notifications && forall o :: o in old(Held()) ==> unchanged(o)
      ensures var d := notifications[name].cfg;
              d.Repr == old(d.Repr) && d.Valid() && d.Value() == old(d.Value())
    {
      hide Document.Valid, Document.Value;
      var d := notifications[name].cfg;
      assert d in old(Held());
      assert forall o :: o in old(d.Repr) ==> o in old(Held());
    }

    lemma StoredAt(name: string)
      requires Valid() && name in notifications
      ensures notifications[name].cfg.Valid() && Stored()[name] == notifications[name].cfg.Value()
    {
    }

    /** What is stored does not change with mappings that are no part of it. */
    twostate lemma StoredUntouched()
      requires old(Valid()) && forall o :: o in old(Held()) ==> unchanged(o)
      requires fresh(handed - old(handed))
      ensures Kept()
    {
      hide Document.Valid, Document.Value;
      forall name | name in notifications
        ensures var d := notifications[name].cfg;
                d.Repr == old(d.Repr) && d.Valid() && d.Value() == old(d.Value())
      {
        OneUntouched(name);
      }
      assert Held() == old(Held());
    }

    twostate lemma PrivateUntouched(d: Document)
      requires old(Private(d)) && forall o :: o in old(d.Repr) ==> unchanged(o)
      requires fresh(handed - old(handed))
      ensures Private(d) && d.Value() == old(d.Value())
    {
      hide Document.Valid, Document.Value;
    }

    method CopyAll(cfg: Document, tpl: Document?, nvars: Document)
      returns (callCfg: Document, callTpl: Document?, callVars: Document)
      requires cfg.Valid() && nvars.Valid() && (tpl != null ==> tpl.Valid())
      ensures callCfg.Valid() && fresh(callCfg.Repr) && callCfg.Value() == cfg.Value()
      ensures callTpl != null ==> callTpl.Valid()
      ensures fresh(ReprOf(callTpl)) && ValueOf(callTpl) == ValueOf(tpl)
      ensures callVars.Valid() && fresh(callVars.Repr) && callVars.Value() == nvars.Value()
    {
      hide Document.Valid, Document.Value;
      callCfg := cfg.DeepCopy();
      callVars := nvars.DeepCopy();
      callTpl := null;
      if tpl != null {
        callTpl := tpl.DeepCopy();
      }
    }

    /** One delivery, of copies: what the handler and those before it do is felt neither in the
        originals nor in what is stored. */
    method CallOne(name: string, id: nat, cfg: Document, tpl: Document?, nvars: Document) returns (reply: Reply)
      requires Valid() && Private(cfg) && Private(nvars) && (tpl != null ==> Private(tpl))
      modifies this`deliveries, this`handed, handed
      ensures deliveries == old(deliveries) + [Delivery(name, id, cfg.Value(), ValueOf(tpl), nvars.Value(), reply)]
      ensures reply == answer(|old(deliveries)|)
      ensures Kept()
      ensures Private(cfg) && cfg.Value() == old(cfg.Value())
      ensures Private(nvars) && nvars.Value() == old(nvars.Value())
      ensures tpl != null ==> Private(tpl) && tpl.Value() == old(tpl.Value())
    {
      hide Document.Valid, Document.Value;
      var callCfg, callTpl, callVars := CopyAll(cfg, tpl, nvars);
      reply := Deliver(name, id, callCfg, callTpl, callVars);
      hide Valid, Stored;
      StoredUntouched();
      PrivateUntouched(cfg);
      PrivateUntouched(nvars);
      if tpl != null { PrivateUntouched(tpl); }
    }

    /** How a run ended, given the deliveries made so far: all acknowledged and their replies
        collected, or stopped at the one delivery (or rendering) the error names. */
    static ghost predicate Ended(r: Result<map<string, seq<string>>, Error>, made: seq<Delivery>) {
      match r
      case Ok(results) => AllAcknowledged(made) && results == Collected(made)
      case Err(RenderFailed(_)) => AllAcknowledged(made)
      case Err(HandlerRaised(name, id)) => LastFailed(made, name, id, Raises)
      case Err(NotAcknowledged(name, id)) => LastFailed(made, name, id, Falsy)
      case Err(_) => false
    }

    static ghost predicate LastFailed(made: seq<Delivery>, name: string, id: nat, reply: Reply) {
      && made != [] && AllAcknowledged(made[..|made| - 1])
      && var d := made[|made| - 1]; d.name == name && d.id == id && d.reply == reply
    }

    static lemma EndedSnoc(results: map<string, seq<string>>, made: seq<Delivery>, d: Delivery)
      requires Ended(Ok(results), made)
      ensures d.reply == Raises ==> Ended(Err(HandlerRaised(d.name, d.id)), made + [d])
      ensures d.reply == Falsy ==> Ended(Err(NotAcknowledged(d.name, d.id)), made + [d])
      ensures d.reply.Ack? ==>
                var replies := if d.name in results then results[d.name] else [];
                Ended(Ok(results[d.name := replies + [d.reply.value]]), made + [d])
    {
      assert (made + [d])[..|made + [d]| - 1] == made;
    }

    /** The plan goes on with `calls` from its n-th entry. */
    static ghost predicate CallsAt(plan: seq<(string, nat)>, n: nat, calls: seq<(string, nat)>) {
      n + |calls| <= |plan| && forall k :: 0 <= k < |calls| ==> plan[n + k] == calls[k]
    }

    /** What a notification's handlers are given copies of: rendered, and private. */
    ghost predicate Prepared(name: string, cfg: Document, tpl: Document?, nvars: Document, stored: Tree, vars: Tree)
      requires name in notifications && vars.Node?
      reads this, cfg, cfg.Repr, nvars, nvars.Repr, tpl, ReprOf(tpl)
    {
      && Private(cfg) && Configured(name, stored, vars) == Some(cfg.Value())
      && (tpl != null ==> Private(tpl)) && Templated(name, vars) == Some(ValueOf(tpl))
      && Private(nvars) && nvars.Value() == NamedVars(vars, name)
    }

    /** The deliveries to one notification's handlers, each given its own copies. */
    method DeliverAll(name: string, cfg: Document, tpl: Document?, nvars: Document, results: map<string, seq<string>>,
                      ghost stored: map<string, Tree>, ghost vars: Tree,
                      ghost plan: seq<(string, nat)>, ghost made: seq<Delivery>)
      returns (r: Result<map<string, seq<string>>, Error>, ghost made': seq<Delivery>)
      requires Valid() && Stored() == stored && name in notifications && vars.Node?
      requires Prepared(name, cfg, tpl, nvars, stored[name], vars)
      requires FollowsPlan(made, plan, stored, vars) && Ended(Ok(results), made)
      requires CallsAt(plan, |made|, Calls(name, notifications[name].handlers))
      modifies this`deliveries, this`handed, handed
      ensures Kept()
      ensures Private(nvars) && nvars.Value() == old(nvars.Value())
      ensures made <= made' && deliveries == old(deliveries) + made'[|made|..]
      ensures FollowsPlan(made', plan, stored, vars) && Ended(r, made')
      ensures r.Ok? ==> |made'| == |made| + |notifications[name].handlers|
      ensures r.Err? ==> !r.error.RenderFailed?
    {
      hide Ended, Configured, Templated, FollowsPlan, NamedVars, Valid, Stored, Document.Valid, Document.Value;
      var handlers := notifications[name].handlers;
      var collected := results;
      made' := made;
      for j := 0 to |handlers|
        invariant Kept()
        invariant Prepared(name, cfg, tpl, nvars, stored[name], vars)
        invariant made <= made' && |made'| == |made| + j && deliveries == old(deliveries) + made'[|made|..]
        invariant FollowsPlan(made', plan, stored, vars) && Ended(Ok(collected), made')
      {
        var handler := handlers[j];
        assert plan[|made'|] == Calls(name, handlers)[j] == (name, handler.id);
        ghost var given := (cfg.Value(), ValueOf(tpl), nvars.Value());
        var reply := CallOne(name, handler.id, cfg, tpl, nvars);
        ghost var d := Delivery(name, handler.id, given.0, given.1, given.2, reply);
        FollowsOne(made', d, plan, stored, vars);
        EndedSnoc(collected, made', d);
        assert (made' + [d])[|made|..] == made'[|made|..] + [d];
        made' := made' + [d];
        match reply {
          case Raises => return Err(HandlerRaised(name, handler.id)), made';
          case Falsy => return Err(NotAcknowledged(name, handler.id)), made';
          case Ack(value) =>
            collected := collected[name := (if name in collected then collected[name] else []) + [value]];
        }
      }
      return Ok(collected), made';
    }

    lemma PlanAt(selected: seq<string>, i: nat)
      requires i < |selected| && forall k :: 0 <= k < |selected| ==> selected[k] in notifications
      ensures var calls := Calls(selected[i], notifications[selected[i]].handlers);
              var start := |Plan(selected[..i])|;
              |Plan(selected[..i + 1])| == start + |calls| && CallsAt(Plan(selected), start, calls)
    {
      hide Plan, Calls;
      assert selected[..i + 1] == selected[..i] + [selected[i]];
      PlanSnoc(selected[..i], selected[i]);
      PlanPrefix(selected, i + 1);
    }

    /** The rendered template in a document of its own; null if there is none. */
    method PrepareTpl(name: string, nvars: Document, ghost vars: Tree) returns (ok: bool, tpl: Document?)
      requires name in notifications && vars.Node?
      requires nvars.Valid() && nvars.Value() == NamedVars(vars, name)
      ensures tpl != null ==> tpl.Valid() && fresh(tpl.Repr)
      ensures Templated(name, vars) == if ok then Some(ValueOf(tpl)) else None
    {
      hide Document.Valid, Document.Value, NamedVars;
      if notifications[name].tpl.None? {
        return true, null;
      }
      var items := renderTpl(notifications[name].tpl.value, nvars.Value());
      if items.None? {
        return false, null;
      }
      tpl := Document.Build(Node(items.value));
      return true, tpl;
    }

    /** A copy of the stored configuration, its address rendered; null if it cannot be. */
    method PrepareCfg(name: string, nvars: Document, ghost vars: Tree) returns (cfg: Document?)
      requires name in notifications && notifications[name].cfg.Valid() && vars.Node?
      requires nvars.Valid() && nvars.Value() == NamedVars(vars, name)
      ensures cfg != null ==> cfg.Valid() && fresh(cfg.Repr)
      ensures Configured(name, notifications[name].cfg.Value(), vars) == ValueOf(cfg)
    {
      hide Document.Valid, Document.Value, NamedVars;
      var copy := notifications[name].cfg.DeepCopy();
      var address := Address(copy.Value());
      if address.None? {
        return null;
      }
      var uri := render(address.value, nvars.Value());
      if uri.None? {
        return null;
      }
      copy.Within("general");
      copy.PutTextIn("general", "uri", uri.value);
      return copy;
    }

    /** One selected notification: rendered, then delivered to its handlers. */
    method RunOne(name: string, nvars: Document, results: map<string, seq<string>>,
                  ghost stored: map<string, Tree>, ghost vars: Tree,
                  ghost plan: seq<(string, nat)>, ghost made: seq<Delivery>)
      returns (r: Result<map<string, seq<string>>, Error>, ghost made': seq<Delivery>)
      requires Valid() && Stored() == stored && name in notifications && vars.Node?
      requires Private(nvars) && nvars.Repr !! Held() && Carries(nvars.Value(), vars)
      requires FollowsPlan(made, plan, stored, vars) && Ended(Ok(results), made)
      requires CallsAt(plan, |made|, Calls(name, notifications[name].handlers))
      modifies this`deliveries, this`handed, handed, nvars
      ensures Kept()
      ensures Private(nvars) && nvars.Repr == old(nvars.Repr) && Carries(nvars.Value(), vars)
      ensures made <= made' && deliveries == old(deliveries) + made'[|made|..]
      ensures FollowsPlan(made', plan, stored, vars) && Ended(r, made')
      ensures r.Ok? ==> |made'| == |made| + |notifications[name].handlers|
      ensures r.Err? && r.error.RenderFailed? ==>
                r == Err(RenderFailed(name)) && made' == made && Unrenderable(name, stored, vars)
    {
      hide Ended, Configured, Templated, FollowsPlan, NamedVars, Calls, CallsAt, Carries, Valid, Stored;
      hide Document.Valid, Document.Value;
      CarriesNamed(nvars.Value(), vars, name);
      nvars.PutText("_NAME_", name);
      StoredUntouched();
      var rendered, tpl := PrepareTpl(name, nvars, vars);
      StoredUntouched();
      if !rendered {
        RenderFails(results, made, name);
        return Err(RenderFailed(name)), made;
      }
      StoredAt(name);
      var cfg := PrepareCfg(name, nvars, vars);
      StoredUntouched();
      if cfg == null {
        RenderFails(results, made, name);
        return Err(RenderFailed(name)), made;
      }
      r, made' := DeliverAll(name, cfg, tpl, nvars, results, stored, vars, plan, made);
    }

    /** The plan goes through the selected names in order, and through the handlers of each. */
    lemma PlanEntry(selected: seq<string>, i: nat, j: nat)
      requires i < |selected| && forall k :: 0 <= k < |selected| ==> selected[k] in notifications
      requires j < |notifications[selected[i]].handlers|
      ensures var handlers := notifications[selected[i]].handlers;
              var start := |Plan(selected[..i])|;
              && |Plan(selected[..i + 1])| == start + |handlers| <= |Plan(selected)|
              && Plan(selected)[start + j] == (selected[i], handlers[j].id)
      ensures Plan([]) == []
    {
      hide Plan;
      PlanAt(selected, i);
      PlanPrefix(selected, i + 1);
      var handlers := notifications[selected[i]].handlers;
      assert Calls(selected[i], handlers)[j] == (selected[i], handlers[j].id);
      NothingPlanned([]);
      var none: seq<string> := [];
      assert none[..0] == none;
    }

    /** The run's own variables, with a second copy of the caller's among them. */
    method NewVars(vars: Document) returns (nvars: Document)
      requires vars.Valid()
      ensures nvars.Valid() && fresh(nvars.Repr) && Carries(nvars.Value(), vars.Value())
    {
      hide Carries, Document.Valid, Document.Value;
      nvars := vars.DeepCopy();
      var whole := vars.DeepCopy();
      nvars.PutDocument("_VARS_", whole);
      CarriesFirst(vars.Value());
    }

    /** The strict run over the selected names. The deliveries made follow the plan from its
        start; a normal return means the whole plan was delivered, each acknowledged, with the
        replies collected by name; a failure stops at the delivery (or rendering) it names.
        No stored configuration changes, now or by anything a handler may do later. */
    method RunStrict(selected: seq<string>, vars: Document)
      returns (r: Result<map<string, seq<string>>, Error>, ghost made: seq<Delivery>)
      requires Valid() && vars.Valid() && forall i :: 0 <= i < |selected| ==> selected[i] in notifications
      modifies this`deliveries, this`handed, handed
      ensures Kept()
      ensures deliveries == old(deliveries) + made
      ensures FollowsPlan(made, Plan(selected), old(Stored()), old(vars.Value())) && Ended(r, made)
      ensures r.Ok? ==> |made| == |Plan(selected)|
      ensures r.Err? && r.error.RenderFailed? ==>
                StuckAt(r.error.name, selected, made, old(Stored()), old(vars.Value()))
    {
      hide Ended, Plan, Calls, CallsAt, NamedVars, Carries, FollowsPlan, Unrenderable;
      hide Stored, Valid, Document.Valid, Document.Value;
      ghost var plan, stored, given := Plan(selected), Stored(), vars.Value();
      made := [];
      r := Ok(map[]);
      NothingMade(plan, stored, given);
      NothingPlanned(selected);
      var nvars := NewVars(vars);
      StoredUntouched();
      var i := 0;
      while i < |selected| && r.Ok?
        invariant i <= |selected| && Kept()
        invariant fresh(nvars.Repr) && Private(nvars) && nvars.Repr !! Held() && Carries(nvars.Value(), given)
        invariant deliveries == old(deliveries) + made
        invariant r.Ok? ==> |made| == |Plan(selected[..i])|
        invariant FollowsPlan(made, plan, stored, given) && Ended(r, made)
        invariant r.Err? && r.error.RenderFailed? ==> StuckAt(r.error.name, selected, made, stored, given)
        decreases |selected| - i
      {
        var name := selected[i];
        PlanAt(selected, i);
        ghost var made';
        r, made' := RunOne(name, nvars, r.value, stored, given, plan, made);
        assert made' == made + made'[|made|..];
        made := made';
        i := i + 1;
      }
      assert selected[..|selected|] == selected;
    }

    /** Variables that lack nothing but the notification's name, or have an old one. */
    ghost predicate Carries(v: Tree, given: Tree) {
      v.Node? && given.Node? && v.items["_NAME_" := Leaf("")] == NamedVars(given, "").items
    }

    lemma CarriesFirst(given: Tree)
      requires given.Node?
      ensures Carries(Node(given.items["_VARS_" := given]), given)
    {
    }

    lemma CarriesNamed(v: Tree, given: Tree, name: string)
      requires Carries(v, given)
      ensures Node(v.items["_NAME_" := Leaf(name)]) == NamedVars(given, name)
      ensures Carries(NamedVars(given, name), given)
    {
      var named := v.items["_NAME_" := Leaf("")];
      assert named["_NAME_" := Leaf(name)] == v.items["_NAME_" := Leaf(name)];
      var g := given.items["_VARS_" := given];
      assert g["_NAME_" := Leaf("")]["_NAME_" := Leaf(name)] == g["_NAME_" := Leaf(name)];
      assert g["_NAME_" := Leaf(name)]["_NAME_" := Leaf("")] == g["_NAME_" := Leaf("")];
    }

    lemma NothingMade(plan: seq<(string, nat)>, stored: map<string, Tree>, vars: Tree)
      requires vars.Node?
      ensures Ended(Ok(map[]), []) && FollowsPlan([], plan, stored, vars)
    {
    }

    static lemma RenderFails(results: map<string, seq<string>>, made: seq<Delivery>, name: string)
      requires Ended(Ok(results), made)
      ensures Ended(Err(RenderFailed(name)), made)
    {
    }

    lemma NothingPlanned(selected: seq<string>)
      requires forall k :: 0 <= k < |selected| ==> selected[k] in notifications
      ensures Plan(selected[..0]) == []
    {
    }

    lemma {:induction false} ChosenKnown(names: seq<string>, tags: set<string>)
      ensures forall i :: 0 <= i < |ChosenOf(names, tags)| ==> Chosen(ChosenOf(names, tags)[i], tags)
    {
      hide Chosen;
      if names != [] { ChosenKnown(names[1..], tags); }
    }

    static function OrElse<T>(x: Option<T>, y: T): T {
      if x.Some? then x.value else y
    }

    /** send(): unless the arguments are valid and the selection acceptable, nothing at all is
        delivered; otherwise the deliveries follow the plan of the chosen names, and a normal
        return means all of it. None stands for all names, and for the default tag. */
    method Send(vars: Document, names: Option<seq<string>>, allNames: seq<string>, tags: Option<set<string>>)
      returns (r: Result<map<string, seq<string>>, Error>, ghost made: seq<Delivery>)
      requires Valid() && vars.Valid()
      modifies this`deliveries, this`handed, handed
      ensures Valid() && Stored() == old(Stored()) && deliveries == old(deliveries) + made
      ensures var ns, ts := OrElse(names, allNames), OrElse(tags, {"all"});
              if names == Some([]) || tags == Some({})
                 || (tags.Some? && exists t :: t in tags.value && !ValidTag(t)) || !Acceptable(ns, ts)
              then r.Err? && made == []
              else
                && FollowsPlan(made, (ChosenKnown(ns, ts); Plan(ChosenOf(ns, ts))), old(Stored()), old(vars.Value()))
                && Ended(r, made)
                && (r.Ok? ==> |made| == |(ChosenKnown(ns, ts); Plan(ChosenOf(ns, ts)))|)
                && (r.Err? && r.error.RenderFailed? ==>
                      (ChosenKnown(ns, ts);
                       StuckAt(r.error.name, ChosenOf(ns, ts), made, old(Stored()), old(vars.Value()))))
    {
      hide Ended, Plan, Acceptable, ValidTag, FollowsPlan, Valid, Stored, Document.Valid, Document.Value;
      made := [];
      assert deliveries + made == deliveries;
      if names.Some? && names.value == [] {
        return Err(InvalidNames), made;
      }
      if tags.Some? && (tags.value == {} || exists t :: t in tags.value && !ValidTag(t)) {
        return Err(InvalidTags), made;
      }
      var ns, ts := OrElse(names, allNames), OrElse(tags, {"all"});
      var selected := Select(ns, ts);
      StoredUntouched();
      if selected.Err? {
        return Err(selected.error), made;
      }
      ChosenKnown(ns, ts);
      r, made := RunStrict(selected.value, vars);
    }
  }
}
