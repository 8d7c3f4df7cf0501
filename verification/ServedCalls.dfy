/** From a guardfile to the calls it governs: what the files state about a tool is what the handler chain
    around that tool does (internal/mcpserver/server.go, lines 82-289). */
module ServedCalls {
  import opened Wrappers
  import opened JsonValues
  import opened Inherit
  import opened Controls
  import opened Gates
  import opened ServerBuild
  import opened ResponseCache
  import opened Pipeline

  /** A guardfile, the files it may inherit, and what those hold. */
  datatype Guardfile = Guardfile(files: Files, contents: map<Path, seq<Node>>, path: Path, src: File, root: seq<Node>)
  {
    function Built(surface: Surface): Option<Gating> { BuildServer(files, contents, path, src, root, surface) }

    predicate Stable() { path in files ==> files[path] == src }

    /** The node is about the tool, and stands in the guardfile or in a file it inherits, however remotely. */
    ghost predicate Asks(n: Node, kind: string, tool: string) {
      Contributes(files, contents, src, root, n) && n.name == kind && n.args == [tool]
    }
  }

  /** A tool's configuration is exactly what is stated about it. */
  ghost predicate AsStated(gf: Guardfile, cfg: ToolConfig, tool: string) {
    && (forall message :: cfg.confirm == Some(message) <==> exists n :: gf.Asks(n, "confirm", tool) && ReadConfirm(n) == Some(message))
    && (forall ttl: nat :: cfg.ttl == Some(ttl) <==> exists n :: gf.Asks(n, "cache", tool) && ReadCache(n) == Some(ttl))
    && (cfg.rejectEmpty <==> exists n :: gf.Asks(n, "reject-empty", tool))
    && (forall field :: field in cfg.fields <==> exists n :: gf.Asks(n, "reject-empty-argument", tool) && ReadField(n) == Some(field))
  }

  lemma AskedIsConfigured(gf: Guardfile, surface: Surface, tool: string, n: Node, declared: Option<set<string>>, limited: bool)
    requires gf.Stable() && gf.Built(surface).Some? && tool in surface.minted && gf.Asks(n, n.name, tool)
    ensures var cfg := ConfigOf(gf.Built(surface).value, tool, declared, limited);
            && (n.name == "confirm" ==> cfg.confirm.Some? && cfg.confirm == ReadConfirm(n))
            && (n.name == "cache" ==> cfg.ttl.Some? && cfg.ttl == ReadCache(n))
            && (n.name == "reject-empty" ==> cfg.rejectEmpty)
            && (n.name == "reject-empty-argument" ==> ReadField(n).Some? && ReadField(n).value in cfg.fields)
  {
    StatedGatesHold(gf.files, gf.contents, gf.path, gf.src, gf.root, surface, n, tool);
  }

  lemma ConfiguredIsAsked(gf: Guardfile, surface: Surface, tool: string, declared: Option<set<string>>, limited: bool)
    requires gf.Stable() && gf.Built(surface).Some?
    ensures var cfg := ConfigOf(gf.Built(surface).value, tool, declared, limited);
            && (cfg.confirm.Some? ==> exists n :: gf.Asks(n, "confirm", tool) && ReadConfirm(n) == cfg.confirm)
            && (cfg.ttl.Some? ==> exists n :: gf.Asks(n, "cache", tool) && ReadCache(n) == cfg.ttl)
            && (cfg.rejectEmpty ==> exists n :: gf.Asks(n, "reject-empty", tool))
            && (forall field :: field in cfg.fields ==> exists n :: gf.Asks(n, "reject-empty-argument", tool) && ReadField(n) == Some(field))
  {
    var chain := ChainOf(InheritedSources(gf.files, gf.path, gf.src).value, gf.contents, gf.root);
    GatesInForceAreStated(gf.files, gf.contents, gf.path, gf.src, gf.root, surface, tool);
    var g := gf.Built(surface).value;
    if tool in g.confirms {
      var n :| Holds(chain, n) && n.name == "confirm" && n.args == [tool] && Some(g.confirms[tool]) == ReadConfirm(n);
      assert gf.Asks(n, "confirm", tool);
    }
    if tool in g.caches {
      var n :| Holds(chain, n) && n.name == "cache" && n.args == [tool] && Some(g.caches[tool]) == ReadCache(n);
      assert gf.Asks(n, "cache", tool);
    }
    if tool in g.rejects {
      var n :| Holds(chain, n) && n.name == "reject-empty" && n.args == [tool];
      assert gf.Asks(n, "reject-empty", tool);
    }
    forall field | field in FieldsOf(g.fields, tool)
      ensures exists n :: gf.Asks(n, "reject-empty-argument", tool) && ReadField(n) == Some(field)
    {
      var n :| Holds(chain, n) && n.name == "reject-empty-argument" && n.args == [tool] && ReadField(n) == Some(field);
      assert gf.Asks(n, "reject-empty-argument", tool);
    }
  }

  /** Every minted tool of a server that builds is served under just the controls the files state about it. */
  lemma ToolIsServedAsStated(gf: Guardfile, surface: Surface, tool: string, declared: Option<set<string>>, limited: bool)
    requires gf.Stable() && gf.Built(surface).Some? && tool in surface.minted
    ensures var cfg := ConfigOf(gf.Built(surface).value, tool, declared, limited);
            && cfg.Accepted() && AsStated(gf, cfg, tool)
            && cfg.name == tool && cfg.declared == declared && cfg.limited == limited
  {
    var cfg := ConfigOf(gf.Built(surface).value, tool, declared, limited);
    BuiltToolsAreAccepted(ChainOf(InheritedSources(gf.files, gf.path, gf.src).value, gf.contents, gf.root), surface, tool, declared, limited);
    ConfiguredIsAsked(gf, surface, tool, declared, limited);
    forall n: Node | gf.Asks(n, n.name, tool)
      ensures n.name == "confirm" ==> cfg.confirm.Some? && cfg.confirm == ReadConfirm(n)
      ensures n.name == "cache" ==> cfg.ttl.Some? && cfg.ttl == ReadCache(n)
      ensures n.name == "reject-empty" ==> cfg.rejectEmpty
      ensures n.name == "reject-empty-argument" ==> ReadField(n).Some? && ReadField(n).value in cfg.fields
    {
      AskedIsConfigured(gf, surface, tool, n, declared, limited);
    }
  }

  // ---------------------------------------------------------------- what a stated control does to calls

  lemma UnconfirmedCall(cfg: ToolConfig, canonical: Json -> string, store: Store, call: Call)
    requires cfg.Accepted() && Clean(cfg, store) && cfg.confirm.Some? && !Confirmed(call)
    ensures var s := Assemble(cfg, canonical)(store, call);
            if call.answer.None? && !GivesBlank(cfg, call.args) then s.trace == [Prompted(cfg.confirm.value)] && s.result.prompt == cfg.confirm
            else s.trace == [] && s.result.isError
  {
    ChainOutcome(cfg, canonical, store, call);
  }

  /** Nothing but a prompt leaves for a tool stated to need confirmation until the client accepts. */
  lemma StatedConfirmBinds(gf: Guardfile, surface: Surface, tool: string, n: Node, declared: Option<set<string>>, limited: bool,
                           canonical: Json -> string, store: Store, call: Call)
    requires gf.Stable() && gf.Built(surface).Some? && tool in surface.minted && gf.Asks(n, "confirm", tool)
    requires Clean(ConfigOf(gf.Built(surface).value, tool, declared, limited), store) && !Confirmed(call)
    ensures var cfg := ConfigOf(gf.Built(surface).value, tool, declared, limited);
            var s := Assemble(cfg, canonical)(store, call);
            if call.answer.None? && !GivesBlank(cfg, call.args) then
              ReadConfirm(n).Some? && s.trace == [Prompted(ReadConfirm(n).value)] && s.result.prompt == ReadConfirm(n)
            else s.trace == [] && s.result.isError
  {
    var cfg := ConfigOf(gf.Built(surface).value, tool, declared, limited);
    ToolIsServedAsStated(gf, surface, tool, declared, limited);
    AskedIsConfigured(gf, surface, tool, n, declared, limited);
    UnconfirmedCall(cfg, canonical, store, call);
  }

  /** A call that leaves a stated field blank is refused, and does nothing. */
  lemma StatedFieldBinds(gf: Guardfile, surface: Surface, tool: string, n: Node, declared: Option<set<string>>, limited: bool,
                         canonical: Json -> string, store: Store, call: Call)
    requires gf.Stable() && gf.Built(surface).Some? && tool in surface.minted && gf.Asks(n, "reject-empty-argument", tool)
    requires Clean(ConfigOf(gf.Built(surface).value, tool, declared, limited), store)
    ensures var cfg := ConfigOf(gf.Built(surface).value, tool, declared, limited);
            var s, args := Assemble(cfg, canonical)(store, call), DecodeArgs(call.args);
            && ReadField(n).Some?
            && (args.Some? && ReadField(n).value in args.value && EmptyJson(args.value[ReadField(n).value]) ==>
                 s.trace == [] && s.result.isError && s.store == store)
  {
    var cfg := ConfigOf(gf.Built(surface).value, tool, declared, limited);
    ToolIsServedAsStated(gf, surface, tool, declared, limited);
    AskedIsConfigured(gf, surface, tool, n, declared, limited);
    GivesBlankIff(cfg, call.args);
    CallIsDisciplined(cfg, canonical, store, call);
  }

  /** No empty answer comes back from a tool stated to refuse them. */
  lemma StatedRejectBinds(gf: Guardfile, surface: Surface, tool: string, n: Node, declared: Option<set<string>>, limited: bool,
                          canonical: Json -> string, store: Store, call: Call)
    requires gf.Stable() && gf.Built(surface).Some? && tool in surface.minted && gf.Asks(n, "reject-empty", tool)
    requires Clean(ConfigOf(gf.Built(surface).value, tool, declared, limited), store)
    ensures var s := Assemble(ConfigOf(gf.Built(surface).value, tool, declared, limited), canonical)(store, call);
            s.result.isError || s.result.prompt.Some? || !EmptyResult(s.result)
  {
    ToolIsServedAsStated(gf, surface, tool, declared, limited);
    AskedIsConfigured(gf, surface, tool, n, declared, limited);
    CallIsDisciplined(ConfigOf(gf.Built(surface).value, tool, declared, limited), canonical, store, call);
  }

  lemma RepeatedCall(cfg: ToolConfig, canonical: Json -> string, store: Store, call: Call, again: Call)
    requires cfg.Accepted() && Clean(cfg, store) && cfg.ttl.Some? && !GivesBlank(cfg, call.args) && !call.args.Undecodable?
    requires !Hits(cfg, canonical, store, call) && !Assemble(cfg, canonical)(store, call).result.isError
    requires again.args == call.args && again.now < call.now + cfg.ttl.value
    ensures var s := Assemble(cfg, canonical)(store, call);
            var t := Assemble(cfg, canonical)(s.store, again);
            t.result == s.result && t.trace == []
  {
    GivesBlankIff(cfg, call.args);
    RepeatIsFree(cfg, canonical, store, call, again);
  }

  /** Inside the stated window, the answer a stated cache took from one call is given to the next with its
      arguments, which does nothing outside. */
  lemma StatedCacheBinds(gf: Guardfile, surface: Surface, tool: string, n: Node, declared: Option<set<string>>, limited: bool,
                         canonical: Json -> string, store: Store, call: Call, again: Call)
    requires gf.Stable() && gf.Built(surface).Some? && tool in surface.minted && gf.Asks(n, "cache", tool)
    requires var cfg := ConfigOf(gf.Built(surface).value, tool, declared, limited);
             && Clean(cfg, store) && !GivesBlank(cfg, call.args) && !call.args.Undecodable?
             && !Hits(cfg, canonical, store, call) && !Assemble(cfg, canonical)(store, call).result.isError
    requires again.args == call.args
    ensures var s := Assemble(ConfigOf(gf.Built(surface).value, tool, declared, limited), canonical)(store, call);
            var t := Assemble(ConfigOf(gf.Built(surface).value, tool, declared, limited), canonical)(s.store, again);
            ReadCache(n).Some? && (again.now < call.now + ReadCache(n).value ==> t.result == s.result && t.trace == [])
  {
    var cfg := ConfigOf(gf.Built(surface).value, tool, declared, limited);
    ToolIsServedAsStated(gf, surface, tool, declared, limited);
    AskedIsConfigured(gf, surface, tool, n, declared, limited);
    if again.now < call.now + ReadCache(n).value {
      RepeatedCall(cfg, canonical, store, call, again);
    }
  }
}
