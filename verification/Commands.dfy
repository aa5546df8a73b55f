/** The deferred command buffer of commands.rs. */
module DeferredCommands {
  import opened Wrappers
  import opened Entities
  import W = Worlds
  import opened WorldObjects

  type ComponentId = W.ComponentId
  type ArchId = W.ArchId

  /** A deferred entity is known by the token of the spawn command that will make it. */
  datatype Target = Token(token: nat) | Known(e: Entity)

  datatype Edit = InsertEdit(cid: ComponentId, payload: W.Payload) | RemoveEdit(cid: ComponentId)

  datatype Command =
    | Spawn(arch: ArchId, token: nat)
    | SpawnBundle(bundle: seq<W.Value>, token: nat)
    | Despawn(target: Target)
    | Typed(target: Target, edit: Edit)

  // ---- what the commands do to a world ----

  function Edited(w: W.World, e: Entity, edit: Edit): (r: W.World)
    requires W.Valid(w)
    ensures W.Valid(r)
  {
    match edit
    case InsertEdit(cid, payload) => W.InsertValid(w, e, cid, payload); W.Insert(w, e, cid, payload).0
    case RemoveEdit(cid) => W.RemoveValid(w, e, cid); W.Remove(w, e, cid).0
  }

  function InsertedAll(w: W.World, e: Entity, values: seq<W.Value>): (r: W.World)
    requires W.Valid(w)
    ensures W.Valid(r)
    decreases |values|
  {
    hide W.Valid, Edited;
    if values == [] then w
    else InsertedAll(Edited(w, e, InsertEdit(values[0].cid, values[0].payload)), e, values[1..])
  }

  /** `Bundle::spawn`: an empty entity, then every value in turn; refusals are ignored. */
  function BundleSpawned(w: W.World, values: seq<W.Value>): (r: (W.World, Entity))
    requires W.Valid(w)
    ensures W.Valid(r.0)
  {
    W.SpawnEmptyValid(w, 0);
    var (w1, e) := W.SpawnEmpty(w, 0);
    (InsertedAll(w1, e, values), e)
  }

  function Resolve(tokens: map<nat, Entity>, target: Target): Option<Entity> {
    match target
    case Token(t) => if t in tokens then Some(tokens[t]) else None
    case Known(e) => Some(e)
  }

  /** Applying commands in queue order.  None is the panic of spawning an unregistered archetype; a
    * command whose token is unknown is skipped. */
  function Applied(w: W.World, commands: seq<Command>, tokens: map<nat, Entity>): (r: Option<W.World>)
    requires W.Valid(w)
    ensures r.Some? ==> W.Valid(r.value)
    decreases |commands|
  {
    hide W.Valid, Edited, W.Spawn, W.Despawn, BundleSpawned;
    if commands == [] then Some(w)
    else
      match commands[0]
      case Spawn(arch, token) =>
        if arch !in w.archetypes then None
        else
          W.SpawnValid(w, arch);
          var (w', e) := W.Spawn(w, arch);
          Applied(w', commands[1..], tokens[token := e])
      case SpawnBundle(bundle, token) =>
        var (w', e) := BundleSpawned(w, bundle);
        Applied(w', commands[1..], tokens[token := e])
      case Despawn(target) =>
        (match Resolve(tokens, target)
         case Some(e) => W.DespawnValid(w, e); Applied(W.Despawn(w, e).0, commands[1..], tokens)
         case None => Applied(w, commands[1..], tokens))
      case Typed(target, edit) =>
        (match Resolve(tokens, target)
         case Some(e) => Applied(Edited(w, e, edit), commands[1..], tokens)
         case None => Applied(w, commands[1..], tokens))
  }

  // ---- the public interface ----

  /** One more call on an `EntityCommands`. */
  datatype Link = EditLink(edit: Edit) | DespawnLink

  /** A call on `Commands`, with the calls chained on the handle it returns. */
  datatype Call =
    | CallSpawn(arch: ArchId, chain: seq<Link>)
    | CallSpawnBundle(bundle: seq<W.Value>, chain: seq<Link>)
    | CallEntity(e: Entity, chain: seq<Link>)
    | CallDespawn(e: Entity)
    | CallInsert(e: Entity, cid: ComponentId, payload: W.Payload)
    | CallRemove(e: Entity, cid: ComponentId)

  function LinkCommand(target: Target, link: Link): Command {
    match link
    case EditLink(edit) => Typed(target, edit)
    case DespawnLink => Despawn(target)
  }

  function ChainCommands(target: Target, chain: seq<Link>): seq<Command> {
    if chain == [] then [] else [LinkCommand(target, chain[0])] + ChainCommands(target, chain[1..])
  }

  function NextToken(call: Call, token: nat): nat {
    if call.CallSpawn? || call.CallSpawnBundle? then token + 1 else token
  }

  function Enqueued(call: Call, token: nat): seq<Command> {
    match call
    case CallSpawn(arch, chain) => [Spawn(arch, token)] + ChainCommands(Token(token), chain)
    case CallSpawnBundle(bundle, chain) => [SpawnBundle(bundle, token)] + ChainCommands(Token(token), chain)
    case CallEntity(e, chain) => ChainCommands(Known(e), chain)
    case CallDespawn(e) => [Despawn(Known(e))]
    case CallInsert(e, cid, payload) => [Typed(Known(e), InsertEdit(cid, payload))]
    case CallRemove(e, cid) => [Typed(Known(e), RemoveEdit(cid))]
  }

  /** Everything that a sequence of calls queues when the next token is `token`. */
  function Built(calls: seq<Call>, token: nat): seq<Command> {
    if calls == [] then [] else Enqueued(calls[0], token) + Built(calls[1..], NextToken(calls[0], token))
  }

  // ---- the same calls made on the world at once ----

  function LinkDone(w: W.World, e: Entity, link: Link): (r: W.World)
    requires W.Valid(w)
    ensures W.Valid(r)
  {
    match link
    case EditLink(edit) => Edited(w, e, edit)
    case DespawnLink => W.DespawnValid(w, e); W.Despawn(w, e).0
  }

  function ChainDone(w: W.World, e: Entity, chain: seq<Link>): (r: W.World)
    requires W.Valid(w)
    ensures W.Valid(r)
    decreases |chain|
  {
    hide W.Valid, LinkDone;
    if chain == [] then w else ChainDone(LinkDone(w, e, chain[0]), e, chain[1..])
  }

  function Done(w: W.World, call: Call): (r: Option<W.World>)
    requires W.Valid(w)
    ensures r.Some? ==> W.Valid(r.value)
  {
    match call
    case CallSpawn(arch, chain) =>
      if arch !in w.archetypes then None
      else W.SpawnValid(w, arch); var (w', e) := W.Spawn(w, arch); Some(ChainDone(w', e, chain))
    case CallSpawnBundle(bundle, chain) =>
      var (w', e) := BundleSpawned(w, bundle); Some(ChainDone(w', e, chain))
    case CallEntity(e, chain) => Some(ChainDone(w, e, chain))
    case CallDespawn(e) => Some(LinkDone(w, e, DespawnLink))
    case CallInsert(e, cid, payload) => Some(Edited(w, e, InsertEdit(cid, payload)))
    case CallRemove(e, cid) => Some(Edited(w, e, RemoveEdit(cid)))
  }

  function AllDone(w: W.World, calls: seq<Call>): (r: Option<W.World>)
    requires W.Valid(w)
    ensures r.Some? ==> W.Valid(r.value)
    decreases |calls|
  {
    hide W.Valid, Done;
    if calls == [] then Some(w)
    else
      match Done(w, calls[0])
      case Some(w') => AllDone(w', calls[1..])
      case None => None
  }

  /** A call made at once is the call on the world; on a chain, one after the other. */
  lemma DirectCalls(w: W.World, e: Entity, cid: ComponentId, payload: W.Payload, arch: ArchId, rest: seq<Link>)
    requires W.Valid(w)
    ensures Done(w, CallInsert(e, cid, payload)) == Some(W.Insert(w, e, cid, payload).0)
    ensures Done(w, CallRemove(e, cid)) == Some(W.Remove(w, e, cid).0)
    ensures Done(w, CallDespawn(e)) == Some(W.Despawn(w, e).0)
    ensures Done(w, CallSpawn(arch, [])) == if arch in w.archetypes then Some(W.Spawn(w, arch).0) else None
    ensures Done(w, CallEntity(e, [])) == Some(w)
    ensures Done(w, CallEntity(e, [EditLink(InsertEdit(cid, payload))] + rest))
         == Done(Done(w, CallInsert(e, cid, payload)).value, CallEntity(e, rest))
    ensures Done(w, CallEntity(e, [EditLink(RemoveEdit(cid))] + rest))
         == Done(Done(w, CallRemove(e, cid)).value, CallEntity(e, rest))
    ensures Done(w, CallEntity(e, [DespawnLink] + rest)) == Done(Done(w, CallDespawn(e)).value, CallEntity(e, rest))
  {
    hide W.Valid, W.Insert, W.Remove, W.Despawn, W.Spawn, BundleSpawned;
    assert forall link: Link :: ([link] + rest)[1..] == rest;
  }

  // ---- deferring changes nothing ----

  lemma {:induction false} ChainApplies(
    w: W.World, target: Target, chain: seq<Link>, rest: seq<Command>, tokens: map<nat, Entity>)
    requires W.Valid(w) && Resolve(tokens, target).Some?
    ensures Applied(w, ChainCommands(target, chain) + rest, tokens) ==
            Applied(ChainDone(w, Resolve(tokens, target).value, chain), rest, tokens)
    decreases |chain|
  {
    hide W.Valid, Edited, W.Despawn;
    var e := Resolve(tokens, target).value;
    if chain == [] {
      assert ChainCommands(target, chain) + rest == rest;
    } else {
      var tail := ChainCommands(target, chain[1..]) + rest;
      assert ChainCommands(target, chain) + rest == [LinkCommand(target, chain[0])] + tail;
      assert ([LinkCommand(target, chain[0])] + tail)[1..] == tail;
      ChainApplies(LinkDone(w, e, chain[0]), target, chain[1..], rest, tokens);
    }
  }

  /** Applying what the calls queued, in a world that meanwhile may have changed in any way, does
    * exactly what making the calls on that world one by one would do: no command is skipped, and each
    * token stands for the entity of its own spawn. */
  lemma {:induction false} ApplyIsDirect(w: W.World, calls: seq<Call>, token: nat, tokens: map<nat, Entity>)
    requires W.Valid(w)
    ensures Applied(w, Built(calls, token), tokens) == AllDone(w, calls)
    decreases |calls|
  {
    hide W.Valid, Edited, W.Despawn, W.Spawn, BundleSpawned, ChainDone, LinkDone;
    if calls != [] {
      var rest := Built(calls[1..], NextToken(calls[0], token));
      CallApplies(w, calls[0], token, rest, tokens);
      if Done(w, calls[0]).Some? {
        var tokens' := TokensAfter(w, calls[0], token, tokens);
        ApplyIsDirect(Done(w, calls[0]).value, calls[1..], NextToken(calls[0], token), tokens');
      }
    }
  }

  function TokensAfter(w: W.World, call: Call, token: nat, tokens: map<nat, Entity>): map<nat, Entity>
    requires W.Valid(w)
  {
    match call
    case CallSpawn(arch, _) => if arch in w.archetypes then tokens[token := W.Spawn(w, arch).1] else tokens
    case CallSpawnBundle(bundle, _) => tokens[token := BundleSpawned(w, bundle).1]
    case _ => tokens
  }

  lemma SpawnApplies(
      w: W.World, arch: ArchId, chain: seq<Link>, token: nat, rest: seq<Command>, tokens: map<nat, Entity>)
    requires W.Valid(w)
    ensures var call := CallSpawn(arch, chain);
            Applied(w, Enqueued(call, token) + rest, tokens) ==
            match Done(w, call)
            case Some(w') => Applied(w', rest, TokensAfter(w, call, token, tokens))
            case None => None
  {
    hide W.Valid, Edited, W.Despawn, W.Spawn, BundleSpawned, ChainDone, ChainCommands;
    var commands := Enqueued(CallSpawn(arch, chain), token) + rest;
    assert commands[0] == Spawn(arch, token) && commands[1..] == ChainCommands(Token(token), chain) + rest;
    if arch in w.archetypes {
      W.SpawnValid(w, arch);
      ChainApplies(W.Spawn(w, arch).0, Token(token), chain, rest, tokens[token := W.Spawn(w, arch).1]);
    }
  }

  lemma BundleApplies(
      w: W.World, bundle: seq<W.Value>, chain: seq<Link>, token: nat, rest: seq<Command>, tokens: map<nat, Entity>)
    requires W.Valid(w)
    ensures var call := CallSpawnBundle(bundle, chain);
            Applied(w, Enqueued(call, token) + rest, tokens) ==
            Applied(Done(w, call).value, rest, TokensAfter(w, call, token, tokens))
  {
    hide W.Valid, Edited, W.Despawn, W.Spawn, BundleSpawned, ChainDone, ChainCommands;
    var commands := Enqueued(CallSpawnBundle(bundle, chain), token) + rest;
    assert commands[0] == SpawnBundle(bundle, token) && commands[1..] == ChainCommands(Token(token), chain) + rest;
    ChainApplies(BundleSpawned(w, bundle).0, Token(token), chain, rest,
                 tokens[token := BundleSpawned(w, bundle).1]);
  }

  lemma CallApplies(w: W.World, call: Call, token: nat, rest: seq<Command>, tokens: map<nat, Entity>)
    requires W.Valid(w)
    ensures Applied(w, Enqueued(call, token) + rest, tokens) ==
            match Done(w, call)
            case Some(w') => Applied(w', rest, TokensAfter(w, call, token, tokens))
            case None => None
  {
    hide W.Valid, Edited, W.Despawn, W.Spawn, BundleSpawned, ChainDone, ChainCommands;
    match call
    case CallSpawn(arch, chain) =>
      SpawnApplies(w, arch, chain, token, rest, tokens);
    case CallSpawnBundle(bundle, chain) =>
      BundleApplies(w, bundle, chain, token, rest, tokens);
    case CallEntity(e, chain) =>
      ChainApplies(w, Known(e), chain, rest, tokens);
    case _ =>
      assert (Enqueued(call, token) + rest)[1..] == rest;
  }

  function TokenAfter(calls: seq<Call>, token: nat): nat {
    if calls == [] then token else TokenAfter(calls[1..], NextToken(calls[0], token))
  }

  /** Each call that CommandBuffer.Enqueue adds extends what was built so far. */
  lemma {:induction false} BuiltAppend(calls: seq<Call>, call: Call, token: nat)
    ensures Built(calls + [call], token) == Built(calls, token) + Enqueued(call, TokenAfter(calls, token))
    ensures TokenAfter(calls + [call], token) == NextToken(call, TokenAfter(calls, token))
    decreases |calls|
  {
    hide Enqueued;
    if calls == [] {
      assert calls + [call] == [call] && [call][1..] == [];
    } else {
      assert (calls + [call])[0] == calls[0] && (calls + [call])[1..] == calls[1..] + [call];
      BuiltAppend(calls[1..], call, NextToken(calls[0], token));
    }
  }

  predicate Makes(c: Command, token: nat) {
    (c.Spawn? || c.SpawnBundle?) && c.token == token
  }

  predicate Uses(c: Command, token: nat) {
    (c.Despawn? || c.Typed?) && c.target == Token(token)
  }

  lemma {:induction false} ChainUses(target: Target, chain: seq<Link>, i: nat)
    requires i < |ChainCommands(target, chain)|
    ensures var c := ChainCommands(target, chain)[i]; (c.Despawn? || c.Typed?) && c.target == target
  {
    if i > 0 {
      ChainUses(target, chain[1..], i - 1);
    }
  }

  /** Every token is made by one command, and used only after that. */
  ghost predicate TokensInOrder(commands: seq<Command>, low: nat) {
    && (forall i | 0 <= i < |commands| && (commands[i].Spawn? || commands[i].SpawnBundle?) :: commands[i].token >= low)
    && (forall i, j | 0 <= i < j < |commands| && (commands[i].Spawn? || commands[i].SpawnBundle?) ::
          !Makes(commands[j], commands[i].token))
    && (forall j, t | 0 <= j < |commands| && Uses(commands[j], t) ::
          exists i :: 0 <= i < j && Makes(commands[i], t))
  }

  lemma EnqueuedTokens(call: Call, token: nat)
    ensures TokensInOrder(Enqueued(call, token), token)
    ensures forall c | c in Enqueued(call, token) && (c.Spawn? || c.SpawnBundle?) :: c.token == token
                                                                                  && NextToken(call, token) == token + 1
  {
    var commands := Enqueued(call, token);
    if call.CallSpawn? || call.CallSpawnBundle? || call.CallEntity? {
      var target := if call.CallEntity? then Known(call.e) else Token(token);
      var links := ChainCommands(target, call.chain);
      forall i | 0 <= i < |links|
        ensures (links[i].Despawn? || links[i].Typed?) && links[i].target == target
      {
        ChainUses(target, call.chain, i);
      }
      if !call.CallEntity? {
        assert Makes(commands[0], token);
      }
    }
  }

  lemma {:induction false} BuiltTokens(calls: seq<Call>, token: nat)
    ensures TokensInOrder(Built(calls, token), token)
    decreases |calls|
  {
    if calls != [] {
      var next := NextToken(calls[0], token);
      var a, b := Enqueued(calls[0], token), Built(calls[1..], next);
      EnqueuedTokens(calls[0], token);
      BuiltTokens(calls[1..], next);
      hide Enqueued, Makes;
      ConcatTokens(a, b, token, next);
    }
  }

  lemma ConcatTokens(a: seq<Command>, b: seq<Command>, token: nat, next: nat)
    requires TokensInOrder(a, token) && TokensInOrder(b, next) && next >= token
    requires forall c | c in a && (c.Spawn? || c.SpawnBundle?) :: c.token < next
    ensures TokensInOrder(a + b, token)
  {
    var s := a + b;
    forall j, t | 0 <= j < |s| && Uses(s[j], t)
      ensures exists i :: 0 <= i < j && Makes(s[i], t)
    {
      if j < |a| {
        var i :| 0 <= i < j && Makes(a[i], t);
        assert Makes(s[i], t);
      } else {
        var i :| 0 <= i < j - |a| && Makes(b[i], t);
        assert Makes(s[i + |a|], t);
      }
    }
    assert forall i | 0 <= i < |a| :: s[i] == a[i] && s[i] in a;
    assert forall i | |a| <= i < |s| :: s[i] == b[i - |a|];
  }

  // ---- bundles ----

  /** The value a bundle gives to a component: the last one it names. */
  function LastValue(values: seq<W.Value>, cid: ComponentId): Option<W.Payload> {
    if values == [] then None
    else if values[|values| - 1].cid == cid then Some(values[|values| - 1].payload)
    else LastValue(values[..|values| - 1], cid)
  }

  /** An entity made by a bundle belongs to an archetype without dense components, so it keeps exactly
    * the sparse values of the bundle; dense ones are refused, and the refusal is ignored. */
  lemma BundleKeepsSparseValues(w: W.World, values: seq<W.Value>, cid: ComponentId)
    requires W.Valid(w)
    ensures var (w', e) := BundleSpawned(w, values);
            && IsAlive(w'.types, e) && e !in w.index
            && W.Get(w', e, cid) == if cid.storage.Sparse? then LastValue(values, cid) else None
    ensures forall d | d in w.index :: W.Get(BundleSpawned(w, values).0, d, cid) == W.Get(w, d, cid)
  {
    hide W.Valid, W.Get;
    EmptyEntity(w, cid);
    var (w1, e) := W.SpawnEmpty(w, 0);
    W.SpawnEmptyValid(w, 0);
    assert values[..|values|] == values;
    InsertedPrefix(w1, e, values, |values|, cid);
    forall d | d in w.index
      ensures W.Get(InsertedAll(w1, e, values), d, cid) == W.Get(w, d, cid)
    {
      EmptyEntityOthers(w, d, cid);
      InsertedOthers(w1, e, values, d, cid);
    }
  }

  /** A live entity whose archetype has no dense components. */
  ghost predicate SparseOnly(w: W.World, e: Entity) {
    && IsAlive(w.types, e) && W.HasRow(w, e)
    && w.archetypes[w.index[e].0].def.components == {}
  }

  lemma EmptyEntity(w: W.World, cid: ComponentId)
    requires W.Valid(w)
    ensures W.Valid(W.SpawnEmpty(w, 0).0)
    ensures var (w1, e) := W.SpawnEmpty(w, 0);
            SparseOnly(w1, e) && W.Get(w1, e, cid) == None && e !in w.index
  {
    hide W.StoragesOk, W.RowsAgree, ValidArenas, W.Get, Alive;
    W.SpawnEmptyValid(w, 0);
    W.WithEmptyArchetypeValid(w, 0);
    var v := W.WithEmptyArchetype(w, 0);
    var a := v.empty[0];
    var (types, e) := AfterAllocate(v.types, 0);
    W.SpawnPlaces(v, a);
    W.SeatedValid(v, a, types, e);
    W.SeatedGet(v, a, types, e, e, cid);
    W.LiveHasRow(W.Seated(v, a, types, e), e);
    W.StorageIsOk(v, a);
    NoDenseColumn(v.archetypes[a], cid);
    hide W.WithEmptyArchetype;
  }

  lemma NoDenseColumn(st: W.Storage, cid: ComponentId)
    requires W.StorageOk(st) && st.def.components == {}
    ensures cid.storage.SoA? ==> cid !in st.columns
  {
    if cid in st.columns {
      assert W.ColumnOk(st, cid, st.columns[cid]);
    }
  }

  lemma EmptyEntityOthers(w: W.World, d: Entity, cid: ComponentId)
    requires W.Valid(w) && d in w.index
    ensures W.Get(W.SpawnEmpty(w, 0).0, d, cid) == W.Get(w, d, cid) && d != W.SpawnEmpty(w, 0).1
  {
    hide W.StoragesOk, W.RowsAgree, ValidArenas, W.Seated, Alive;
    W.WithEmptyArchetypeValid(w, 0);
    var v := W.WithEmptyArchetype(w, 0);
    var (types, e) := AfterAllocate(v.types, 0);
    W.SpawnPlaces(v, v.empty[0]);
    W.SeatedGet(v, v.empty[0], types, e, d, cid);
    W.LiveHasRow(w, d);
  }

  lemma SparseInsert(w: W.World, e: Entity, v: W.Value, cid: ComponentId)
    requires W.Valid(w) && SparseOnly(w, e)
    ensures var w' := Edited(w, e, InsertEdit(v.cid, v.payload));
            && W.Valid(w') && SparseOnly(w', e)
            && W.Get(w', e, cid) == if v.cid == cid && cid.storage.Sparse? then Some(v.payload) else W.Get(w, e, cid)
  {
    hide W.StoragesOk, W.RowsAgree, W.SyntheticOk, ValidArenas, Alive, W.Get, W.StorageOk, W.Written;
    W.InsertValid(w, e, v.cid, v.payload);
    if v.cid.storage.Sparse? {
      W.InsertGet(w, e, v.cid, v.payload, e, cid);
      W.WrittenOk(w.archetypes[w.index[e].0], v.cid, w.index[e].1, v.payload);
      W.LiveHasRow(W.Insert(w, e, v.cid, v.payload).0, e);
      assert W.Written(w.archetypes[w.index[e].0], v.cid, w.index[e].1, v.payload).def.components == {} by {
        WrittenDef(w.archetypes[w.index[e].0], v.cid, w.index[e].1, v.payload);
      }
    }
  }

  lemma WrittenDef(st: W.Storage, cid: ComponentId, idx: nat, payload: W.Payload)
    requires W.StorageOk(st) && idx < |st.slots|
    ensures W.Written(st, cid, idx, payload).def == st.def
  {
  }

  lemma {:induction false} InsertedSnoc(w: W.World, e: Entity, values: seq<W.Value>, v: W.Value)
    requires W.Valid(w)
    ensures InsertedAll(w, e, values + [v]) == Edited(InsertedAll(w, e, values), e, InsertEdit(v.cid, v.payload))
    decreases |values|
  {
    hide W.Valid, Edited;
    if values == [] {
      assert (values + [v])[1..] == [];
    } else {
      assert (values + [v])[1..] == values[1..] + [v];
      InsertedSnoc(Edited(w, e, InsertEdit(values[0].cid, values[0].payload)), e, values[1..], v);
    }
  }

  lemma {:induction false} InsertedPrefix(w: W.World, e: Entity, values: seq<W.Value>, n: nat, cid: ComponentId)
    requires W.Valid(w) && SparseOnly(w, e) && W.Get(w, e, cid) == None && n <= |values|
    ensures var w' := InsertedAll(w, e, values[..n]);
            && SparseOnly(w', e)
            && W.Get(w', e, cid) == if cid.storage.Sparse? then LastValue(values[..n], cid) else None
    decreases n
  {
    hide W.Valid, Edited, SparseOnly, W.Get;
    if n > 0 {
      InsertedPrefix(w, e, values, n - 1, cid);
      assert values[..n] == values[..n - 1] + [values[n - 1]];
      InsertedSnoc(w, e, values[..n - 1], values[n - 1]);
      SparseInsert(InsertedAll(w, e, values[..n - 1]), e, values[n - 1], cid);
      assert values[..n][..n - 1] == values[..n - 1];
    }
  }

  lemma {:induction false} InsertedOthers(w: W.World, e: Entity, values: seq<W.Value>, d: Entity, cid: ComponentId)
    requires W.Valid(w) && SparseOnly(w, e) && d != e
    ensures W.Get(InsertedAll(w, e, values), d, cid) == W.Get(w, d, cid)
    decreases |values|
  {
    hide W.Valid, W.Get, SparseOnly, Edited;
    if values != [] {
      SparseInsert(w, e, values[0], cid);
      SparseInsertOthers(w, e, values[0], d, cid);
      InsertedOthers(Edited(w, e, InsertEdit(values[0].cid, values[0].payload)), e, values[1..], d, cid);
    }
  }

  lemma SparseInsertOthers(w: W.World, e: Entity, v: W.Value, d: Entity, cid: ComponentId)
    requires W.Valid(w) && SparseOnly(w, e) && d != e
    ensures W.Get(Edited(w, e, InsertEdit(v.cid, v.payload)), d, cid) == W.Get(w, d, cid)
  {
    hide W.Valid, W.Get;
    if v.cid.storage.Sparse? {
      W.InsertGet(w, e, v.cid, v.payload, d, cid);
    }
  }

  // ---- the buffer ----

  class CommandBuffer {
    var commands: seq<Command>
    var nextToken: nat

    constructor ()
      ensures commands == [] && nextToken == 0
    {
      commands, nextToken := [], 0;
    }

    method Clear()
      modifies this
      ensures commands == [] && nextToken == old(nextToken)
    {
      commands := [];
    }

    method ApplyEdit(world: World, e: Entity, edit: Edit)
      requires world.Valid()
      modifies world
      ensures world.Valid() && world.State() == Edited(old(world.State()), e, edit)
    {
      match edit {
        case InsertEdit(cid, payload) => var _ := world.Insert(e, cid, payload);
        case RemoveEdit(cid) => var _ := world.Remove(e, cid);
      }
    }

    method SpawnValues(world: World, values: seq<W.Value>) returns (e: Entity)
      requires world.Valid()
      modifies world, world.entities
      ensures world.Valid() && (world.State(), e) == BundleSpawned(old(world.State()), values)
    {
      hide W.Valid, Edited, W.SpawnEmpty;
      ghost var w := world.State();
      W.SpawnEmptyValid(w, 0);
      e := world.SpawnEmptyWith(0);
      ghost var w1 := world.State();
      var i := 0;
      while i < |values|
        invariant 0 <= i <= |values| && world.Valid()
        invariant InsertedAll(world.State(), e, values[i..]) == InsertedAll(w1, e, values)
      {
        assert values[i..][1..] == values[i + 1..];
        ApplyEdit(world, e, InsertEdit(values[i].cid, values[i].payload));
        i := i + 1;
      }
    }

    /** Applies the queued commands in order and empties the buffer; the tokens go on counting. */
    method Apply(world: World)
      requires world.Valid() && Applied(world.State(), commands, map[]).Some?
      modifies this, world, world.entities
      ensures world.Valid() && Some(world.State()) == Applied(old(world.State()), old(commands), map[])
      ensures commands == [] && nextToken == old(nextToken)
    {
      hide W.Valid, Edited, W.Spawn, W.Despawn, BundleSpawned;
      ghost var whole := Applied(world.State(), commands, map[]);
      var tokens: map<nat, Entity> := map[];
      var queue := commands;
      commands := [];
      while queue != []
        invariant world.Valid() && Applied(world.State(), queue, tokens) == whole
        invariant commands == [] && nextToken == old(nextToken)
        decreases |queue|
      {
        var command := queue[0];
        queue := queue[1..];
        match command {
          case Spawn(arch, token) =>
            var e := world.Spawn(arch);
            tokens := tokens[token := e];
          case SpawnBundle(bundle, token) =>
            var e := SpawnValues(world, bundle);
            tokens := tokens[token := e];
          case Despawn(target) =>
            var e := Resolve(tokens, target);
            if e.Some? {
              var _ := world.Despawn(e.value);
            }
          case Typed(target, edit) =>
            var e := Resolve(tokens, target);
            if e.Some? {
              ApplyEdit(world, e.value, edit);
            }
        }
      }
    }

    /** `Commands::spawn`, `spawn_bundle`, `entity`, `despawn`, `insert` and `remove`, with the calls
      * chained on the handle. */
    method Enqueue(call: Call)
      modifies this
      ensures commands == old(commands) + Enqueued(call, old(nextToken))
      ensures nextToken == NextToken(call, old(nextToken))
    {
      match call {
        case CallSpawn(arch, chain) =>
          var token := nextToken;
          nextToken := nextToken + 1;
          commands := commands + [Spawn(arch, token)];
          Chain(Token(token), chain);
        case CallSpawnBundle(bundle, chain) =>
          var token := nextToken;
          nextToken := nextToken + 1;
          commands := commands + [SpawnBundle(bundle, token)];
          Chain(Token(token), chain);
        case CallEntity(e, chain) => Chain(Known(e), chain);
        case CallDespawn(e) => commands := commands + [Despawn(Known(e))];
        case CallInsert(e, cid, payload) => commands := commands + [Typed(Known(e), InsertEdit(cid, payload))];
        case CallRemove(e, cid) => commands := commands + [Typed(Known(e), RemoveEdit(cid))];
      }
    }

    /** The calls on one `EntityCommands`, which borrows the buffer for as long as it lives. */
    method Chain(target: Target, chain: seq<Link>)
      modifies this
      ensures commands == old(commands) + ChainCommands(target, chain) && nextToken == old(nextToken)
    {
      var i := 0;
      while i < |chain|
        invariant 0 <= i <= |chain| && nextToken == old(nextToken)
        invariant commands + ChainCommands(target, chain[i..]) == old(commands) + ChainCommands(target, chain)
      {
        assert chain[i..][1..] == chain[i + 1..];
        commands := commands + [LinkCommand(target, chain[i])];
        i := i + 1;
      }
    }
  }
}
