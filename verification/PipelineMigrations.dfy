/**
 * Migrations 056, 057, 075 and 095: from stage names on deals to a stage key scoped to a pipeline.
 * Each migration is a transaction: where a statement raises, the database is as it was.
 */
module PipelineMigrations {
  import opened Options

  type Id = nat

  datatype Pipeline = Pipeline(name: string, isDefault: bool)

  /** A row of pipeline_stages; `pipeline` is None for NULL and before the column exists. */
  datatype Stage = Stage(name: string, sortOrder: int, pipeline: Option<Id>)

  /** A row of deals; likewise for its two key columns. */
  datatype Deal = Deal(stage: string, pipeline: Option<Id>, stageId: Option<Id>)

  datatype Db = Db(pipelines: map<Id, Pipeline>, stages: map<Id, Stage>, deals: map<Id, Deal>)

  // ----- constraints -----

  /** `UNIQUE (lower(name))` and `UNIQUE (sort_order)`, from migrations 021 and 022. */
  predicate StagesUnique(lower: string -> string, stages: map<Id, Stage>) {
    forall a, b :: a in stages && b in stages && a != b ==>
      lower(stages[a].name) != lower(stages[b].name) && stages[a].sortOrder != stages[b].sortOrder
  }

  /** The same per pipeline; a unique index never compares rows whose pipeline is NULL. */
  predicate StagesUniquePerPipeline(lower: string -> string, stages: map<Id, Stage>) {
    forall a, b :: a in stages && b in stages && a != b
                   && stages[a].pipeline.Some? && stages[a].pipeline == stages[b].pipeline ==>
      lower(stages[a].name) != lower(stages[b].name) && stages[a].sortOrder != stages[b].sortOrder
  }

  /** `pipelines_single_default_idx` */
  predicate OneDefaultAtMost(pipelines: map<Id, Pipeline>) {
    forall a, b :: a in pipelines && b in pipelines && pipelines[a].isDefault && pipelines[b].isDefault ==> a == b
  }

  predicate IsDefault(pipelines: map<Id, Pipeline>, p: Id) {
    p in pipelines && pipelines[p].isDefault
  }

  /** The default pipeline, or NULL. */
  ghost function DefaultOf(pipelines: map<Id, Pipeline>): (p: Option<Id>)
    ensures p.Some? ==> IsDefault(pipelines, p.value)
    ensures p.None? ==> forall q :: !IsDefault(pipelines, q)
  {
    if p :| IsDefault(pipelines, p) then Some(p) else None
  }

  lemma DefaultIs(pipelines: map<Id, Pipeline>, p: Id)
    requires OneDefaultAtMost(pipelines) && IsDefault(pipelines, p)
    ensures DefaultOf(pipelines) == Some(p)
  {
  }

  // ----- what the migrations do -----

  function FillStage(s: Stage, p: Option<Id>): Stage {
    if s.pipeline.None? then s.(pipeline := p) else s
  }

  function FillDeal(d: Deal, p: Option<Id>): Deal {
    if d.pipeline.None? then d.(pipeline := p) else d
  }

  /** 056 with `p` the key generated for the default pipeline. */
  function After056(db: Db, p: Id): Db {
    Db(map[p := Pipeline("Default", true)],
       map s | s in db.stages :: FillStage(db.stages[s].(pipeline := None), Some(p)),
       db.deals)
  }

  ghost function After057(db: Db): Db {
    db.(deals := map d | d in db.deals :: FillDeal(db.deals[d].(pipeline := None), DefaultOf(db.pipelines)))
  }

  ghost function After075(db: Db): Option<Db> {
    if DefaultOf(db.pipelines).None? then None
    else Some(db.(deals := map d | d in db.deals :: FillDeal(db.deals[d], DefaultOf(db.pipelines))))
  }

  /** The join of 095: the stage of the deal's own pipeline that bears the deal's stage name. */
  predicate Names(db: Db, d: Deal, s: Id) {
    s in db.stages && db.stages[s].name == d.stage && d.pipeline.Some? && db.stages[s].pipeline == d.pipeline
  }

  ghost predicate IsOrphan(db: Db, d: Deal) {
    forall s :: !Names(db, d, s)
  }

  /** The deal as the join leaves it: on a stage it names, or as it was where it names none. */
  ghost predicate IsBackfilled(db: Db, before: Deal, after: Deal) {
    || (after.stageId.Some? && Names(db, before, after.stageId.value) && after == before.(stageId := after.stageId))
    || (after.stageId.None? && after == before && IsOrphan(db, before))
  }

  /** 095 raises when some deal stays without a stage. */
  ghost predicate Aborts095(db: Db) {
    exists d :: d in db.deals && IsOrphan(db, db.deals[d])
  }

  /** What 095 may leave: each deal on some stage it names, all else as before. */
  ghost predicate Linked095(before: Db, after: Db) {
    && after.pipelines == before.pipelines && after.stages == before.stages
    && after.deals.Keys == before.deals.Keys
    && forall d :: d in before.deals ==>
         && after.deals[d].stageId.Some?
         && Names(before, before.deals[d], after.deals[d].stageId.value)
         && after.deals[d] == before.deals[d].(stageId := after.deals[d].stageId)
  }

  // ----- the promises -----

  /** A deal names at most one stage, so the join has one answer. */
  lemma NamesAtMostOne(lower: string -> string, db: Db, d: Deal, s: Id, t: Id)
    requires StagesUniquePerPipeline(lower, db.stages) && Names(db, d, s) && Names(db, d, t)
    ensures s == t
  {
  }

  /** Where the join is single-valued, 095 has exactly one outcome. */
  lemma Linked095IsUnique(lower: string -> string, before: Db, a: Db, b: Db)
    requires StagesUniquePerPipeline(lower, before.stages) && Linked095(before, a) && Linked095(before, b)
    ensures a == b
  {
    forall d | d in before.deals ensures a.deals[d] == b.deals[d] {
      NamesAtMostOne(lower, before, before.deals[d], a.deals[d].stageId.value, b.deals[d].stageId.value);
    }
    assert a.deals == b.deals;
  }

  /** Globally unique stages stay unique in the one pipeline they all move to. */
  lemma Unique056(lower: string -> string, db: Db, p: Id)
    requires StagesUnique(lower, db.stages)
    ensures StagesUniquePerPipeline(lower, After056(db, p).stages)
    ensures OneDefaultAtMost(After056(db, p).pipelines)
  {
  }

  lemma FilledIsAfter056(db: Db, p: Id)
    ensures var cleared := map s | s in db.stages :: db.stages[s].(pipeline := None);
            After056(db, p) == Db(map[p := Pipeline("Default", true)],
                                  map s | s in cleared :: FillStage(cleared[s], Some(p)), db.deals)
  {
  }

  /** 056 outright: one pipeline, and every stage in it with its name and place. */
  lemma After056Is(lower: string -> string, db: Db, p: Id)
    ensures var next := After056(db, p);
            && next.pipelines == map[p := Pipeline("Default", true)]
            && next.deals == db.deals && next.stages.Keys == db.stages.Keys
            && (forall s :: s in next.stages ==>
                  && next.stages[s].name == db.stages[s].name && next.stages[s].sortOrder == db.stages[s].sortOrder
                  && next.stages[s].pipeline == Some(p))
    ensures StagesUniquePerPipeline(lower, After056(db, p).stages) <==> StagesUnique(lower, db.stages)
  {
    if StagesUnique(lower, db.stages) { Unique056(lower, db, p); }
    var next := After056(db, p);
    if StagesUniquePerPipeline(lower, next.stages) {
      forall a, b | a in db.stages && b in db.stages && a != b
        ensures lower(db.stages[a].name) != lower(db.stages[b].name)
        ensures db.stages[a].sortOrder != db.stages[b].sortOrder
      {
        assert a in next.stages && b in next.stages;
      }
    }
  }

  /** A deal of the old database names a stage by its exact name. */
  predicate NamesStage(db: Db, d: Deal, s: Id) {
    s in db.stages && db.stages[s].name == d.stage
  }

  /** The database 095 starts from when 056, 057 and 075 have run on `db`. */
  ghost function After056To075(db: Db, p: Id): (after: Option<Db>) {
    After075(After057(After056(db, p)))
  }

  lemma ChainBefore095(db: Db, p: Id)
    ensures After056To075(db, p).Some?
    ensures var d := After056To075(db, p).value;
            && d.pipelines == map[p := Pipeline("Default", true)]
            && d.stages == After056(db, p).stages && d.stages.Keys == db.stages.Keys
            && d.deals.Keys == db.deals.Keys
            && (forall s :: s in d.stages ==> d.stages[s] == db.stages[s].(pipeline := Some(p)))
            && (forall k :: k in d.deals ==> d.deals[k] == db.deals[k].(pipeline := Some(p)))
  {
    var a := After056(db, p);
    DefaultIs(a.pipelines, p);
    var b := After057(a);
    assert DefaultOf(b.pipelines) == Some(p);
  }

  lemma NamesAsBefore(db: Db, p: Id, d: Id, s: Id)
    requires d in db.deals && After056To075(db, p).Some?
    ensures var mid := After056To075(db, p).value;
            d in mid.deals && (Names(mid, mid.deals[d], s) <==> NamesStage(db, db.deals[d], s))
  {
    ChainBefore095(db, p);
  }

  lemma AbortsOnStrangers(db: Db, p: Id)
    requires After056To075(db, p).Some?
    ensures Aborts095(After056To075(db, p).value)
            <==> exists d :: d in db.deals && forall s :: !NamesStage(db, db.deals[d], s)
  {
    ChainBefore095(db, p);
    var mid := After056To075(db, p).value;
    forall d | d in db.deals
      ensures IsOrphan(mid, mid.deals[d]) <==> forall s :: !NamesStage(db, db.deals[d], s)
    {
      forall s ensures Names(mid, mid.deals[d], s) <==> NamesStage(db, db.deals[d], s) { NamesAsBefore(db, p, d, s); }
    }
  }

  lemma LinkedAsNamed(lower: string -> string, db: Db, p: Id, after: Db, d: Id)
    requires StagesUnique(lower, db.stages) && After056To075(db, p).Some?
    requires Linked095(After056To075(db, p).value, after) && d in db.deals
    ensures d in after.deals && after.deals[d].stage == db.deals[d].stage
    ensures after.deals[d].pipeline == Some(p) && after.deals[d].stageId.Some?
    ensures forall s :: NamesStage(db, db.deals[d], s) <==> s == after.deals[d].stageId.value
  {
    ChainBefore095(db, p);
    Unique056(lower, db, p);
    var mid := After056To075(db, p).value;
    var chosen := after.deals[d].stageId.value;
    assert Names(mid, mid.deals[d], chosen);
    forall s ensures NamesStage(db, db.deals[d], s) <==> s == chosen {
      NamesAsBefore(db, p, d, s);
      if NamesStage(db, db.deals[d], s) { NamesAtMostOne(lower, mid, mid.deals[d], s, chosen); }
    }
  }

  /**
   * 056, 057 and 075 succeed on any database with globally unique stages; 095 then aborts exactly
   * when some deal's text names no stage; and where it does not, each deal ends on the one stage
   * of its own pipeline that bears its old stage name, with that text kept.
   */
  lemma ChainOutcome(lower: string -> string, db: Db, p: Id)
    requires StagesUnique(lower, db.stages)
    ensures After056To075(db, p).Some?
    ensures var mid := After056To075(db, p).value;
            && StagesUniquePerPipeline(lower, mid.stages)
            && (Aborts095(mid) <==> exists d :: d in db.deals && forall s :: !NamesStage(db, db.deals[d], s))
            && forall after, d :: Linked095(mid, after) && d in db.deals ==>
                 && d in after.deals && after.deals[d].stage == db.deals[d].stage
                 && after.deals[d].pipeline == Some(p)
                 && after.deals[d].stageId.Some?
                 && forall s :: NamesStage(db, db.deals[d], s) <==> s == after.deals[d].stageId.value
  {
    ChainBefore095(db, p);
    Unique056(lower, db, p);
    AbortsOnStrangers(db, p);
    var mid := After056To075(db, p).value;
    forall after, d | Linked095(mid, after) && d in db.deals
      ensures d in after.deals && after.deals[d].stage == db.deals[d].stage
      ensures after.deals[d].pipeline == Some(p) && after.deals[d].stageId.Some?
      ensures forall s :: NamesStage(db, db.deals[d], s) <==> s == after.deals[d].stageId.value
    {
      LinkedAsNamed(lower, db, p, after, d);
    }
  }

  // ----- the migrations as they run -----

  class Database {
    var pipelines: map<Id, Pipeline>
    var stages: map<Id, Stage>
    var deals: map<Id, Deal>
    /** `deals.pipeline_id NOT NULL` */
    var pipelineRequired: bool
    /** `deals.pipeline_stage_id NOT NULL` with its restricting key */
    var stageRequired: bool

    ghost function State(): Db
      reads this
    {
      Db(pipelines, stages, deals)
    }

    constructor (pipelines: map<Id, Pipeline>, stages: map<Id, Stage>, deals: map<Id, Deal>)
      ensures State() == Db(pipelines, stages, deals) && !pipelineRequired && !stageRequired
    {
      this.pipelines, this.stages, this.deals := pipelines, stages, deals;
      pipelineRequired, stageRequired := false, false;
    }

    /** `(SELECT id FROM pipelines WHERE is_default = true)` */
    method FindDefault() returns (p: Option<Id>)
      requires OneDefaultAtMost(pipelines)
      ensures p == DefaultOf(pipelines)
    {
      p := None;
      var todo := pipelines.Keys;
      while todo != {}
        invariant todo <= pipelines.Keys
        invariant p.Some? ==> IsDefault(pipelines, p.value)
        invariant p.None? ==> forall q :: q in pipelines && q !in todo ==> !pipelines[q].isDefault
        decreases todo
      {
        var q :| q in todo;
        if pipelines[q].isDefault { p := Some(q); }
        todo := todo - {q};
      }
    }

    method Up056(lower: string -> string, key: Id) returns (ok: bool)
      modifies this
      ensures ok <==> StagesUniquePerPipeline(lower, After056(old(State()), key).stages)
      ensures State() == if ok then After056(old(State()), key) else old(State())
      ensures ok <==> StagesUnique(lower, old(stages))
      ensures ok ==> pipelines == map[key := Pipeline("Default", true)] && stages.Keys == old(stages).Keys
      ensures ok ==> forall s :: s in stages ==>
                && stages[s].name == old(stages)[s].name && stages[s].sortOrder == old(stages)[s].sortOrder
                && stages[s].pipeline == Some(key)
      ensures !ok ==> pipelines == old(pipelines) && stages == old(stages)
      ensures deals == old(deals)
      ensures pipelineRequired == old(pipelineRequired) && stageRequired == old(stageRequired)
    {
      After056Is(lower, State(), key);
      FilledIsAfter056(State(), key);
      hide StagesUnique, StagesUniquePerPipeline, After056, FillStage;
      var pipelines0, stages0 := pipelines, stages;
      pipelines := map[];
      pipelines := pipelines[key := Pipeline("Default", true)];
      assert OneDefaultAtMost(pipelines);
      stages := map s | s in stages :: stages[s].(pipeline := None);
      var default := FindDefault();
      DefaultIs(pipelines, key);
      stages := map s | s in stages :: FillStage(stages[s], default);
      assert pipelines == map[key := Pipeline("Default", true)];
      ok := StagesUniquePerPipeline(lower, stages);
      assert State() == After056(old(State()), key);
      if !ok { pipelines, stages := pipelines0, stages0; }
    }

    method Up057()
      requires OneDefaultAtMost(pipelines)
      modifies this
      ensures State() == After057(old(State()))
      ensures pipelines == old(pipelines) && stages == old(stages) && deals.Keys == old(deals).Keys
      ensures forall d :: d in deals ==>
                && deals[d].stage == old(deals)[d].stage && deals[d].stageId == old(deals)[d].stageId
                && (forall p: Id :: IsDefault(pipelines, p) ==> deals[d].pipeline == Some(p))
                && ((forall p: Id :: !IsDefault(pipelines, p)) ==> deals[d].pipeline == None)
      ensures pipelineRequired == old(pipelineRequired) && stageRequired == old(stageRequired)
    {
      deals := map d | d in deals :: deals[d].(pipeline := None);
      var default := FindDefault();
      deals := map d | d in deals :: FillDeal(deals[d], default);
    }

    method Up075() returns (ok: bool)
      requires OneDefaultAtMost(pipelines)
      modifies this
      ensures ok <==> After075(old(State())).Some?
      ensures State() == if ok then After075(old(State())).value else old(State())
      ensures pipelineRequired == (ok || old(pipelineRequired)) && stageRequired == old(stageRequired)
      ensures ok <==> exists p: Id :: IsDefault(old(pipelines), p)
      ensures pipelines == old(pipelines) && stages == old(stages) && deals.Keys == old(deals).Keys
      ensures !ok ==> deals == old(deals)
      ensures ok ==> forall d :: d in deals ==>
                if old(deals)[d].pipeline.Some? then deals[d] == old(deals)[d]
                else && deals[d].stage == old(deals)[d].stage && deals[d].stageId == old(deals)[d].stageId
                     && deals[d].pipeline.Some? && IsDefault(pipelines, deals[d].pipeline.value)
    {
      var default := FindDefault();
      if default.None? { return false; }
      deals := map d | d in deals :: FillDeal(deals[d], default);
      pipelineRequired := true;
      ok := true;
    }

    /** `UPDATE deals … FROM pipeline_stages`: each deal takes any one stage the join offers. */
    method BackfillStages()
      requires forall d :: d in deals ==> deals[d].stageId.None?
      modifies `deals
      ensures deals.Keys == old(deals).Keys
      ensures forall d :: d in deals ==> IsBackfilled(old(State()), old(deals)[d], deals[d])
    {
      ghost var before := State();
      var todo := deals.Keys;
      while todo != {}
        invariant todo <= deals.Keys == before.deals.Keys
        invariant pipelines == before.pipelines && stages == before.stages
        invariant forall d :: d in todo ==> deals[d] == before.deals[d]
        invariant forall d :: d in deals && d !in todo ==> IsBackfilled(before, before.deals[d], deals[d])
        decreases todo
      {
        var d :| d in todo;
        var deal := deals[d];
        var matching := set s | s in stages && stages[s].name == deal.stage
                                && deal.pipeline.Some? && stages[s].pipeline == deal.pipeline;
        assert forall s :: Names(before, deal, s) <==> s in matching;
        if matching != {} {
          var s :| s in matching;
          deals := deals[d := deal.(stageId := Some(s))];
        }
        todo := todo - {d};
      }
    }

    method Up095() returns (ok: bool)
      requires forall d :: d in deals ==> deals[d].stageId.None?
      modifies this
      ensures ok <==> !Aborts095(old(State()))
      ensures if ok then Linked095(old(State()), State()) else State() == old(State())
      ensures stageRequired == (ok || old(stageRequired)) && pipelineRequired == old(pipelineRequired)
    {
      ghost var before := State();
      var deals0 := deals;
      BackfillStages();
      assert forall d :: d in deals ==> IsBackfilled(before, before.deals[d], deals[d]);
      ok := forall d | d in deals :: deals[d].stageId.Some?;
      if ok {
        stageRequired := true;
      } else {
        var d :| d in deals && deals[d].stageId.None?;
        assert IsOrphan(before, before.deals[d]);
        deals := deals0;
      }
    }

    /** All four in order, as the migration runner does it. */
    method MigrateChain(lower: string -> string, key: Id) returns (ok: bool)
      requires StagesUnique(lower, stages) && forall d :: d in deals ==> deals[d].stageId.None?
      modifies this
      ensures ok <==> forall d :: d in old(deals) ==> exists s :: NamesStage(old(State()), old(deals)[d], s)
      ensures After056To075(old(State()), key).Some?
      ensures var mid := After056To075(old(State()), key).value;
              if ok then Linked095(mid, State()) else State() == mid
      ensures StagesUniquePerPipeline(lower, stages) && pipelineRequired
      ensures deals.Keys == old(deals).Keys
      ensures ok ==> stageRequired && forall d :: d in deals ==>
                deals[d].stageId.Some? && Names(State(), deals[d], deals[d].stageId.value)
                && deals[d].stage == old(deals)[d].stage
    {
      ghost var db := State();
      ChainOutcome(lower, db, key);
      ChainBefore095(db, key);
      Unique056(lower, db, key);
      ok := Up056(lower, key);
      Up057();
      ok := Up075();
      ghost var mid := State();
      assert mid == After056To075(db, key).value;
      ok := Up095();
      if ok { StillNames(mid, State()); }
    }

    // ----- what the restricting key keeps afterwards -----

    /** Every deal stands on a stage that is there. */
    ghost predicate EveryDealPlaced()
      reads this
    {
      forall d :: d in deals ==> deals[d].stageId.Some? && deals[d].stageId.value in stages
    }

    method DeleteStage(s: Id) returns (ok: bool)
      requires stageRequired && EveryDealPlaced()
      modifies this
      ensures EveryDealPlaced() && deals == old(deals) && pipelines == old(pipelines)
      ensures stageRequired == old(stageRequired)
      ensures ok <==> forall d :: d in deals ==> deals[d].stageId != Some(s)
      ensures stages == if ok then old(stages) - {s} else old(stages)
    {
      ok := forall d | d in deals :: deals[d].stageId != Some(s);
      if ok { stages := stages - {s}; }
    }

    /** `pipeline_stages.pipeline_id` cascades, but not past the deals' keys. */
    method DeletePipeline(p: Id) returns (ok: bool)
      requires stageRequired && EveryDealPlaced()
      modifies this
      ensures EveryDealPlaced() && deals == old(deals) && stageRequired == old(stageRequired)
      ensures ok <==> forall d :: d in deals ==>
                deals[d].pipeline != Some(p) && old(stages)[deals[d].stageId.value].pipeline != Some(p)
      ensures pipelines == if ok then old(pipelines) - {p} else old(pipelines)
      ensures ok ==> forall s :: s in stages <==> s in old(stages) && old(stages)[s].pipeline != Some(p)
      ensures ok ==> forall s :: s in stages ==> stages[s] == old(stages)[s]
      ensures !ok ==> stages == old(stages)
    {
      ok := forall d | d in deals :: deals[d].pipeline != Some(p) && stages[deals[d].stageId.value].pipeline != Some(p);
      if ok {
        pipelines := pipelines - {p};
        stages := map s | s in stages && stages[s].pipeline != Some(p) :: stages[s];
      }
    }
  }

  lemma StillNames(before: Db, after: Db)
    requires Linked095(before, after)
    ensures forall d :: d in after.deals ==> Names(after, after.deals[d], after.deals[d].stageId.value)
  {
    forall d | d in after.deals ensures Names(after, after.deals[d], after.deals[d].stageId.value) {
      assert Names(before, before.deals[d], after.deals[d].stageId.value);
    }
  }
}
