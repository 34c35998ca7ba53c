/** Workspace metadata of the wrangler service (version 2 of the protocol):
    the workspace object, its builder, and the null-handling actions a
    column can carry. */
module Workspaces {
  import opened Wrappers
  import opened JavaNum

  /** What to do with a row whose value in a column is null. */
  datatype UserDefinedAction = NO_ACTION | SKIP_ROW | SEND_TO_ERROR_COLLECTOR | ERROR_PIPELINE | NULLABLE

  /** The schema and the plugin artifact are carried, never inspected. */
  datatype Schema = Schema(json: string)
  datatype Artifact = Artifact(name: string, version: string, scope: string)
  datatype Plugin = Plugin(name: string, pluginType: string, properties: map<string, string>, artifact: Artifact)
  datatype StageSpec = StageSpec(schema: Schema, plugin: Plugin)
  /** The sample spec: where the sample came from, and the source plugins. */
  datatype SampleSpec = SampleSpec(connectionName: string, path: string, relatedPlugins: set<StageSpec>)
  /** The insights `JsonObject`, carried and never inspected. */
  datatype Insights = Insights(members: map<string, string>)

  type ColumnMappings = map<string, UserDefinedAction>

  /** A mutable `java.util.List<String>`, kept as an object so that sharing
      one list between two holders is visible. */
  class StringList {
    var items: seq<string>

    constructor (items0: seq<string>)
      ensures items == items0
    {
      items := items0;
    }
  }

  /** The constructor's rule: a null or empty mapping becomes an empty map. */
  function NormaliseMappings(m: Option<ColumnMappings>): (r: Option<ColumnMappings>)
    ensures r.Some?
    ensures m.None? || m.value == map[] ==> r == Some(map[])
    ensures m.Some? && m.value != map[] ==> r == m
  {
    if m.None? || m.value == map[] then Some(map[]) else m
  }

  class Workspace {
    const workspaceName: string
    const workspaceId: string
    const directives: StringList
    const createdTimeMillis: Long
    const updatedTimeMillis: Long
    const sampleSpec: Option<SampleSpec>
    const insights: Option<Insights>
    var columnMappings: Option<ColumnMappings>

    /** The private constructor, reached only through `Builder.build`. */
    constructor (workspaceName: string, workspaceId: string, directives: StringList,
                 createdTimeMillis: Long, updatedTimeMillis: Long, sampleSpec: Option<SampleSpec>,
                 insights: Option<Insights>, columnMappings: Option<ColumnMappings>)
      ensures this.workspaceName == workspaceName && this.workspaceId == workspaceId
      ensures this.directives == directives
      ensures this.createdTimeMillis == createdTimeMillis && this.updatedTimeMillis == updatedTimeMillis
      ensures this.sampleSpec == sampleSpec && this.insights == insights
      ensures this.columnMappings.Some?
      ensures this.columnMappings == NormaliseMappings(columnMappings)
    {
      this.workspaceName := workspaceName;
      this.workspaceId := workspaceId;
      this.directives := directives;
      this.createdTimeMillis := createdTimeMillis;
      this.updatedTimeMillis := updatedTimeMillis;
      this.sampleSpec := sampleSpec;
      this.insights := insights;
      this.columnMappings := if columnMappings.None? || columnMappings.value == map[]
        then Some(map[]) else columnMappings;
    }

    /** `setColumnMappings` stores its argument as it is, null included. */
    method SetColumnMappings(m: Option<ColumnMappings>)
      modifies this
      ensures columnMappings == m
    {
      columnMappings := m;
    }

    /** `equals`: name, id, directive contents and sample spec; timestamps,
        insights and column mappings play no part. */
    predicate Equals(other: Workspace)
      reads this, other, directives, other.directives
    {
      workspaceName == other.workspaceName && workspaceId == other.workspaceId
      && directives.items == other.directives.items && sampleSpec == other.sampleSpec
    }

    /** The fields `hashCode` combines with `Objects.hash`. */
    function HashKey(): (string, string, seq<string>, Option<SampleSpec>)
      reads this, directives
    {
      (workspaceName, workspaceId, directives.items, sampleSpec)
    }
  }

  class Builder {
    const workspaceName: string
    const workspaceId: string
    const directives: StringList
    var createdTimeMillis: Long
    var updatedTimeMillis: Long
    var sampleSpec: Option<SampleSpec>
    var insights: Option<Insights>
    var columnMappings: Option<ColumnMappings>

    /** `builder(name, id)`: a new empty list, an empty insights object, and
        Java's defaults (0 and null) for everything else. */
    constructor (name: string, workspaceId: string)
      ensures workspaceName == name && this.workspaceId == workspaceId
      ensures fresh(directives) && directives.items == []
      ensures createdTimeMillis == 0 && updatedTimeMillis == 0
      ensures sampleSpec.None? && insights == Some(Insights(map[])) && columnMappings.None?
    {
      workspaceName := name;
      this.workspaceId := workspaceId;
      directives := new StringList([]);
      createdTimeMillis, updatedTimeMillis := 0, 0;
      sampleSpec := None;
      insights := Some(Insights(map[]));
      columnMappings := None;
    }

    /** `setDirectives`: `clear()` then `addAll(src)`. The contents are
        replaced, not appended to; passing the builder's own list empties it. */
    method SetDirectives(src: StringList)
      modifies directives
      ensures directives.items == (if src == directives then [] else old(src.items))
      ensures src != directives ==> src.items == old(src.items)
    {
      directives.items := [];
      directives.items := directives.items + src.items;
    }

    method SetCreatedTimeMillis(t: Long)
      modifies this
      ensures createdTimeMillis == t
      ensures updatedTimeMillis == old(updatedTimeMillis) && sampleSpec == old(sampleSpec)
      ensures insights == old(insights) && columnMappings == old(columnMappings)
    {
      createdTimeMillis := t;
    }

    method SetUpdatedTimeMillis(t: Long)
      modifies this
      ensures updatedTimeMillis == t
      ensures createdTimeMillis == old(createdTimeMillis) && sampleSpec == old(sampleSpec)
      ensures insights == old(insights) && columnMappings == old(columnMappings)
    {
      updatedTimeMillis := t;
    }

    method SetSampleSpec(s: Option<SampleSpec>)
      modifies this
      ensures sampleSpec == s
      ensures createdTimeMillis == old(createdTimeMillis) && updatedTimeMillis == old(updatedTimeMillis)
      ensures insights == old(insights) && columnMappings == old(columnMappings)
    {
      sampleSpec := s;
    }

    method SetInsights(i: Option<Insights>)
      modifies this
      ensures insights == i
      ensures createdTimeMillis == old(createdTimeMillis) && updatedTimeMillis == old(updatedTimeMillis)
      ensures sampleSpec == old(sampleSpec) && columnMappings == old(columnMappings)
    {
      insights := i;
    }

    method SetColumnMappings(m: Option<ColumnMappings>)
      modifies this
      ensures columnMappings == m
      ensures createdTimeMillis == old(createdTimeMillis) && updatedTimeMillis == old(updatedTimeMillis)
      ensures sampleSpec == old(sampleSpec) && insights == old(insights)
    {
      columnMappings := m;
    }

    /** `build`: the workspace receives the builder's own directive list, not
        a copy. */
    method Build() returns (w: Workspace)
      ensures fresh(w)
      ensures w.workspaceName == workspaceName && w.workspaceId == workspaceId
      ensures w.directives == directives
      ensures w.createdTimeMillis == createdTimeMillis && w.updatedTimeMillis == updatedTimeMillis
      ensures w.sampleSpec == sampleSpec && w.insights == insights
      ensures w.columnMappings == NormaliseMappings(columnMappings)
    {
      w := new Workspace(workspaceName, workspaceId, directives, createdTimeMillis, updatedTimeMillis,
                         sampleSpec, insights, columnMappings);
    }
  }

  /** `Workspace.builder(existing)`: a new builder holding a copy of the
      existing directives and every other field of `existing`. */
  method BuilderFrom(existing: Workspace) returns (b: Builder)
    ensures fresh(b) && fresh(b.directives)
    ensures b.workspaceName == existing.workspaceName && b.workspaceId == existing.workspaceId
    ensures b.directives.items == existing.directives.items
    ensures b.createdTimeMillis == existing.createdTimeMillis
    ensures b.updatedTimeMillis == existing.updatedTimeMillis
    ensures b.sampleSpec == existing.sampleSpec && b.insights == existing.insights
    ensures b.columnMappings == existing.columnMappings
  {
    b := new Builder(existing.workspaceName, existing.workspaceId);
    b.SetDirectives(existing.directives);
    b.SetCreatedTimeMillis(existing.createdTimeMillis);
    b.SetUpdatedTimeMillis(existing.updatedTimeMillis);
    b.SetSampleSpec(existing.sampleSpec);
    b.SetInsights(existing.insights);
    b.SetColumnMappings(existing.columnMappings);
  }

  /** `builder(existing).build()` is equal to `existing`, has the same hash
      input, and keeps its timestamps, insights and column mappings; only a
      null mapping (possible after `setColumnMappings(null)`) comes back as an
      empty map. The copy does not share `existing`'s directive list. */
  method Rebuild(existing: Workspace) returns (w: Workspace)
    ensures fresh(w) && fresh(w.directives)
    ensures w.Equals(existing) && w.HashKey() == existing.HashKey()
    ensures w.createdTimeMillis == existing.createdTimeMillis
    ensures w.updatedTimeMillis == existing.updatedTimeMillis
    ensures w.insights == existing.insights
    ensures w.columnMappings == NormaliseMappings(existing.columnMappings)
    ensures existing.columnMappings.Some? && existing.columnMappings.value != map[] ==>
      w.columnMappings == existing.columnMappings
  {
    var b := BuilderFrom(existing);
    w := b.Build();
  }

  /** A builder used without setters yields empty directives, timestamps of
      0, no sample spec and an empty (not null) mapping. */
  method BuildFresh(name: string, workspaceId: string) returns (w: Workspace)
    ensures fresh(w) && fresh(w.directives)
    ensures w.workspaceName == name && w.workspaceId == workspaceId
    ensures w.directives.items == [] && w.createdTimeMillis == 0 && w.updatedTimeMillis == 0
    ensures w.sampleSpec.None? && w.columnMappings == Some(map[])
  {
    var b := new Builder(name, workspaceId);
    w := b.Build();
  }

  /** Because `build` hands over the builder's list, a later `setDirectives`
      on the builder changes the directives of the workspace it built. */
  method SetDirectivesAfterBuild(b: Builder, src: StringList) returns (w: Workspace)
    requires src != b.directives
    modifies b.directives
    ensures fresh(w) && w.directives == b.directives
    ensures w.directives.items == old(src.items)
  {
    w := b.Build();
    b.SetDirectives(src);
  }

  /** Workspaces that differ only in timestamps, insights or mappings are
      equal and hash alike. */
  lemma EqualityIgnoresMetadata(a: Workspace, b: Workspace)
    requires a.workspaceName == b.workspaceName && a.workspaceId == b.workspaceId
    requires a.directives.items == b.directives.items && a.sampleSpec == b.sampleSpec
    ensures a.Equals(b) && b.Equals(a) && a.HashKey() == b.HashKey()
  {
  }
}
