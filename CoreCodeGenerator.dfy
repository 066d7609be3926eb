/** The generation driver, `CoreCodeGenerator.generate()`: clean the data sink, build
    the ordered list of template-file publishers (the `gen.properties` metadata unit
    first, then every registered generator's publishers), write every unit the
    concatenated stream yields, and call `postClean()` once the blocking
    subscription returns. */
module Generation {
  import opened Files
  import Text

  /** What the data sink is asked to do, in the order it is asked. */
  datatype Event = Clean | Write(unit: TemplateFile) | PostClean

  /** A publisher of template files: it emits `items` in order, then completes or,
      when `fails`, signals an error (a renderer that threw while being enumerated). */
  datatype Publisher = Publisher(items: seq<TemplateFile>, fails: bool)

  /** A registered `CodeGenerator`: `generate()` returns its publishers, or throws. */
  datatype CodeGenerator = Generates(publishers: seq<Publisher>) | Throws(message: string)

  /** Kotlin's message when a `lateinit` property is read before it was injected. */
  function Uninitialized(property: string): string
  {
    "lateinit property " + property + " has not been initialized"
  }

  /** The build-metadata unit synthesised by the driver itself. */
  function MetadataUnit(gitHash: string): TemplateFile
  {
    TemplateFile("gen.properties", "hash=" + gitHash)
  }

  /** `generators.flatMap { it.generate() }`: the publishers in generator order, or the
      exception of the first generator that throws. */
  function CollectPublishers(gens: seq<CodeGenerator>): Result<seq<Publisher>>
  {
    if gens == [] then Ok([])
    else match gens[0]
      case Throws(m) => Thrown(m)
      case Generates(ps) =>
        match CollectPublishers(gens[1..])
        case Thrown(m) => Thrown(m)
        case Ok(rest) => Ok(ps + rest)
  }

  function PublishersOf(g: CodeGenerator): seq<Publisher>
  {
    if g.Generates? then g.publishers else []
  }

  /** `Flowable.concat(publishers)` as a list of units: each publisher's items in turn,
      stopping after the first publisher that signals an error. */
  function Enumerated(pubs: seq<Publisher>): seq<TemplateFile>
  {
    if pubs == [] then []
    else if pubs[0].fails then pubs[0].items
    else pubs[0].items + Enumerated(pubs[1..])
  }

  /** Whether the concatenated stream ends with an error rather than completing. */
  predicate StreamFails(pubs: seq<Publisher>)
  {
    exists k :: 0 <= k < |pubs| && pubs[k].fails
  }

  /** Everything the generators publish, when no publisher fails. */
  function AllItems(pubs: seq<Publisher>): seq<TemplateFile>
  {
    Text.Flatten(Text.Map((p: Publisher) => p.items, pubs))
  }

  /** The publisher list `generate()` builds: the metadata unit, then the generators' publishers. */
  function TemplatePublishers(gitHash: string, pubs: seq<Publisher>): seq<Publisher>
  {
    [Publisher([MetadataUnit(gitHash)], false)] + pubs
  }

  /** The write events of a sequence of units, in order. */
  function WriteEvents(units: seq<TemplateFile>): (es: seq<Event>)
  {
    Text.Map((u: TemplateFile) => Write(u), units)
  }

  /** Writing one more unit adds its event at the end of a trace. */
  lemma WriteEventsSnoc(before: seq<Event>, written: seq<TemplateFile>, u: TemplateFile)
    ensures before + WriteEvents(written) + [Write(u)] == before + WriteEvents(written + [u])
  {
    assert WriteEvents(written + [u]) == WriteEvents(written) + [Write(u)];
  }

  /** The sink's files after `written` was handed to `write` in order, starting
      from `start`: each unit whose path the sink can write replaces that path's
      content, and a unit it cannot write leaves the files alone. */
  function Persisted(start: map<string, string>, written: seq<TemplateFile>, failing: set<string>): map<string, string>
  {
    if written == [] then start
    else
      var before := Persisted(start, written[..|written| - 1], failing);
      var u := written[|written| - 1];
      if u.relativePath in failing then before else before[u.relativePath := u.content]
  }

  /** Writing one more unit: it replaces its path's content unless the path fails. */
  lemma PersistedSnoc(start: map<string, string>, written: seq<TemplateFile>, u: TemplateFile, failing: set<string>)
    ensures Persisted(start, written + [u], failing) ==
      var before := Persisted(start, written, failing);
      if u.relativePath in failing then before else before[u.relativePath := u.content]
  {
    assert (written + [u])[..|written|] == written;
  }

  /** After the writes, the sink holds exactly the paths it held before and the
      writable paths of the units written. */
  lemma {:induction false} PersistedPaths(start: map<string, string>, written: seq<TemplateFile>, failing: set<string>)
    ensures Persisted(start, written, failing).Keys ==
      start.Keys + set u | u in written && u.relativePath !in failing :: u.relativePath
    decreases |written|
  {
    if written != [] {
      var init := written[..|written| - 1];
      var u := written[|written| - 1];
      PersistedPaths(start, init, failing);
      assert written == init + [u];
      var now := set w | w in written && w.relativePath !in failing :: w.relativePath;
      var before := set w | w in init && w.relativePath !in failing :: w.relativePath;
      if u.relativePath in failing {
        assert now == before;
      } else {
        assert now == before + {u.relativePath};
      }
    }
  }

  /** The last write to a writable path decides its content. */
  lemma {:induction false} PersistedLastWrite(start: map<string, string>, written: seq<TemplateFile>, failing: set<string>, i: nat)
    requires i < |written| && written[i].relativePath !in failing
    requires forall j :: i < j < |written| ==> written[j].relativePath != written[i].relativePath
    ensures written[i].relativePath in Persisted(start, written, failing)
    ensures Persisted(start, written, failing)[written[i].relativePath] == written[i].content
    decreases |written|
  {
    if i < |written| - 1 {
      var init := written[..|written| - 1];
      PersistedLastWrite(start, init, failing, i);
    }
  }

  // ---------------------------------------------------------------------------
  // Properties of the unit list
  // ---------------------------------------------------------------------------

  /** `flatMap` throws exactly when some generator throws, and then with the first
      thrower's message; otherwise it lists every generator's publishers in order. */
  lemma {:induction false} CollectPublishersOutcome(gens: seq<CodeGenerator>)
    ensures CollectPublishers(gens).Thrown? <==> exists k :: 0 <= k < |gens| && gens[k].Throws?
    ensures CollectPublishers(gens).Thrown? ==>
      exists k :: 0 <= k < |gens| && gens[k].Throws? && CollectPublishers(gens).message == gens[k].message
        && forall j :: 0 <= j < k ==> gens[j].Generates?
    ensures CollectPublishers(gens).Ok? ==>
      CollectPublishers(gens).value == Text.Flatten(Text.Map(PublishersOf, gens))
    decreases |gens|
  {
    if gens != [] {
      CollectPublishersOutcome(gens[1..]);
      var f := PublishersOf;
      assert Text.Map(f, gens)[1..] == Text.Map(f, gens[1..]);
      if CollectPublishers(gens[1..]).Thrown? && gens[0].Generates? {
        var k :| 0 <= k < |gens[1..]| && gens[1..][k].Throws? && CollectPublishers(gens[1..]).message == gens[1..][k].message
          && forall j :: 0 <= j < k ==> gens[1..][j].Generates?;
        assert gens[k + 1] == gens[1..][k];
        forall j | 0 <= j < k + 1 ensures gens[j].Generates? {
          if j > 0 { assert gens[j] == gens[1..][j - 1]; }
        }
      }
      if CollectPublishers(gens).Ok? {
        assert gens[0].Generates?;
        assert Text.Map(PublishersOf, gens)[0] == PublishersOf(gens[0]) == gens[0].publishers;
      }
    }
  }

  /** Without a failing publisher the stream yields every item, in publisher order. */
  lemma {:induction false} EnumeratedComplete(pubs: seq<Publisher>)
    requires !StreamFails(pubs)
    ensures Enumerated(pubs) == AllItems(pubs)
    decreases |pubs|
  {
    if pubs != [] {
      assert !pubs[0].fails;
      assert !StreamFails(pubs[1..]) by {
        forall k | 0 <= k < |pubs[1..]| ensures !pubs[1..][k].fails {
          assert pubs[1..][k] == pubs[k + 1];
        }
      }
      EnumeratedComplete(pubs[1..]);
      var f := (p: Publisher) => p.items;
      assert Text.Map(f, pubs)[1..] == Text.Map(f, pubs[1..]);
    }
  }

  /** Whatever fails, the stream's units are a prefix of everything published. */
  lemma {:induction false} EnumeratedPrefix(pubs: seq<Publisher>)
    ensures |Enumerated(pubs)| <= |AllItems(pubs)|
    ensures Enumerated(pubs) == AllItems(pubs)[..|Enumerated(pubs)|]
    decreases |pubs|
  {
    if pubs != [] {
      EnumeratedPrefix(pubs[1..]);
      var f := (p: Publisher) => p.items;
      assert Text.Map(f, pubs)[1..] == Text.Map(f, pubs[1..]);
      assert AllItems(pubs) == pubs[0].items + AllItems(pubs[1..]);
    }
  }

  /** The first unit is always `gen.properties` holding `hash=` and the git hash, and
      after it come the generators' units in `flatMap`/`concat` order; without a
      failing publisher there are exactly 1 + (all items) of them. */
  lemma UnitsComposition(gitHash: string, pubs: seq<Publisher>)
    ensures var units := Enumerated(TemplatePublishers(gitHash, pubs));
      && |units| >= 1
      && units[0].relativePath == "gen.properties"
      && units[0].content == "hash=" + gitHash
      && units[1..] == Enumerated(pubs)
      && (!StreamFails(pubs) ==> units == [MetadataUnit(gitHash)] + AllItems(pubs)
                                 && |units| == 1 + |AllItems(pubs)|)
  {
    var all := TemplatePublishers(gitHash, pubs);
    assert all[1..] == pubs;
    assert !all[0].fails;
    if !StreamFails(pubs) { EnumeratedComplete(pubs); }
  }

  /** What a completed `generate()` leaves in the sink's trace (see its ensures):
      after the events the sink had already seen, the run is one `Clean`, then the
      writes in the order they happened, then one `PostClean`; no clean follows the
      first event of the run and no post-clean precedes its last. */
  lemma LifecycleOrder(before: seq<Event>, written: seq<TemplateFile>, trace: seq<Event>)
    requires trace == before + [Clean] + WriteEvents(written) + [PostClean]
    ensures var run := trace[|before|..];
      && |run| == |written| + 2
      && run[0] == Clean && run[|run| - 1] == PostClean
      && (forall i :: 0 < i < |run| ==> run[i] != Clean)
      && (forall i :: 0 <= i < |run| - 1 ==> run[i] != PostClean)
      && (forall i :: 0 < i < |run| - 1 ==> run[i] == Write(written[i - 1]))
  {
    assert trace[|before|..] == [Clean] + WriteEvents(written) + [PostClean];
  }

  // ---------------------------------------------------------------------------
  // The data sink and the driver
  // ---------------------------------------------------------------------------

  /** The destination: an in-memory file tree whose writes to `failingPaths` raise an
      error, and whose clean reports `cleanSucceeds`. `trace` records every call. */
  class DataSink {
    var files: map<string, string>
    const cleanSucceeds: bool
    const failingPaths: set<string>
    ghost var trace: seq<Event>

    constructor (cleanSucceeds: bool, failingPaths: set<string>)
      ensures this.cleanSucceeds == cleanSucceeds && this.failingPaths == failingPaths
      ensures files == map[] && trace == []
    {
      this.cleanSucceeds := cleanSucceeds;
      this.failingPaths := failingPaths;
      files := map[];
      trace := [];
    }

    /** Destructive pre-clean: reports whether it succeeded. */
    method Clean() returns (ok: bool)
      modifies this
      ensures ok == cleanSucceeds
      ensures files == if ok then map[] else old(files)
      ensures trace == old(trace) + [Event.Clean]
    {
      ok := cleanSucceeds;
      if ok { files := map[]; }
      trace := trace + [Event.Clean];
    }

    /** Persists one unit, or raises (`ok == false`) for a path it cannot write. */
    method Write(u: TemplateFile) returns (ok: bool)
      modifies this
      ensures ok == (u.relativePath !in failingPaths)
      ensures files == if ok then old(files)[u.relativePath := u.content] else old(files)
      ensures trace == old(trace) + [Event.Write(u)]
    {
      ok := u.relativePath !in failingPaths;
      if ok { files := files[u.relativePath := u.content]; }
      trace := trace + [Event.Write(u)];
    }

    method PostClean()
      modifies this
      ensures files == old(files)
      ensures trace == old(trace) + [Event.PostClean]
    {
      trace := trace + [Event.PostClean];
    }
  }

  /** The parallel write stage `parallel(…).map { dataSink.write(it) }`, seen as a
      loop that picks any unit not yet written. A write that raises ends the stream;
      when the stream is to end in an error, the error may arrive before any
      remaining unit is written. `written` lists the units handed to `write`, in order. */
  method WriteUnits(sink: DataSink, units: seq<TemplateFile>, streamFails: bool)
    returns (ghost written: seq<TemplateFile>)
    modifies sink
    ensures sink.trace == old(sink.trace) + WriteEvents(written)
    ensures sink.files == Persisted(old(sink.files), written, sink.failingPaths)
    ensures multiset(written) <= multiset(units)
    ensures forall i :: 0 <= i < |written| - 1 ==> written[i].relativePath !in sink.failingPaths
    ensures !streamFails && (forall u :: u in units ==> u.relativePath !in sink.failingPaths)
      ==> multiset(written) == multiset(units)
  {
    written := [];
    var pending := units;
    while pending != []
      invariant multiset(written) + multiset(pending) == multiset(units)
      invariant sink.trace == old(sink.trace) + WriteEvents(written)
      invariant sink.files == Persisted(old(sink.files), written, sink.failingPaths)
      invariant forall i :: 0 <= i < |written| ==> written[i].relativePath !in sink.failingPaths
      decreases |pending|
    {
      if streamFails {
        // The error may reach the subscriber before any further unit is written.
        var cancelled: bool :| true;
        if cancelled {
          WrittenWithin(written, pending, units);
          break;
        }
      }
      var k :| 0 <= k < |pending|;
      var u := pending[k];
      TakeAt(written, pending, units, k);
      var ok := sink.Write(u);
      WriteEventsSnoc(old(sink.trace), written, u);
      PersistedSnoc(old(sink.files), written, u, sink.failingPaths);
      WrittenStep(written, u, sink.failingPaths);
      written := written + [u];
      pending := pending[..k] + pending[k + 1..];
      if !ok { break; }
    }
    if pending == [] {
      WrittenWithin(written, pending, units);
    }
  }

  lemma WrittenWithin(written: seq<TemplateFile>, pending: seq<TemplateFile>, units: seq<TemplateFile>)
    requires multiset(written) + multiset(pending) == multiset(units)
    ensures multiset(written) <= multiset(units)
    ensures pending == [] ==> multiset(written) == multiset(units)
  {
  }

  /** One more unit written after units whose paths can be written: all but the
      last still can, and all can when the new one can. */
  lemma WrittenStep(written: seq<TemplateFile>, u: TemplateFile, failing: set<string>)
    requires forall i :: 0 <= i < |written| ==> written[i].relativePath !in failing
    ensures forall i :: 0 <= i < |written + [u]| - 1 ==> (written + [u])[i].relativePath !in failing
    ensures u.relativePath !in failing ==>
      forall i :: 0 <= i < |written + [u]| ==> (written + [u])[i].relativePath !in failing
  {
  }

  /** Moving the `k`-th pending unit to the written ones keeps the two together
      equal to the units: the unit is one of them, and what is written stays within them. */
  lemma TakeAt(written: seq<TemplateFile>, pending: seq<TemplateFile>, units: seq<TemplateFile>, k: nat)
    requires k < |pending| && multiset(written) + multiset(pending) == multiset(units)
    ensures pending[k] in units
    ensures multiset(written + [pending[k]]) + multiset(pending[..k] + pending[k + 1..]) == multiset(units)
    ensures multiset(written + [pending[k]]) <= multiset(units)
  {
    assert pending == pending[..k] + [pending[k]] + pending[k + 1..];
    assert pending[k] in multiset(units);
  }

  /** The sink's files right after the pre-clean. */
  function Cleaned(sink: DataSink, files: map<string, string>): map<string, string>
  {
    if sink.cleanSucceeds then map[] else files
  }

  /** How `generate()` returns: normally, or by an exception it does not catch. */
  datatype Completion = Completed | Threw(message: string)

  class CoreCodeGenerator {
    const dataSink: DataSink
    /** `lateinit var generators`; `None` when it was never injected. */
    var generators: Option<seq<CodeGenerator>>
    /** `lateinit var gitHash`; `None` when it was never injected. */
    var gitHash: Option<string>

    constructor (dataSink: DataSink, generators: Option<seq<CodeGenerator>>, gitHash: Option<string>)
      ensures this.dataSink == dataSink && this.generators == generators && this.gitHash == gitHash
    {
      this.dataSink := dataSink;
      this.generators := generators;
      this.gitHash := gitHash;
    }

    /** The units the stream would enumerate, once both injected fields are read. */
    ghost function Units(): seq<TemplateFile>
      reads this
      requires gitHash.Some? && generators.Some? && CollectPublishers(generators.value).Ok?
    {
      Enumerated(TemplatePublishers(gitHash.value, CollectPublishers(generators.value).value))
    }

    ghost predicate RunFails()
      reads this
      requires gitHash.Some? && generators.Some? && CollectPublishers(generators.value).Ok?
    {
      StreamFails(CollectPublishers(generators.value).value)
    }

    /** `generate()`. The writes run on parallel rails in no fixed order; here each
        iteration picks any unit not yet written. An error (a write that raises, or a
        failing publisher) ends the subscription: the error callback only logs, no
        further unit is written, and `postClean()` still runs. `written` lists the
        units handed to `write`, in the order they were. */
    method Generate() returns (outcome: Completion, ghost written: seq<TemplateFile>)
      modifies dataSink
      ensures outcome.Threw? <==>
        gitHash.None? || generators.None? || CollectPublishers(generators.value).Thrown?
      ensures gitHash.None? ==> outcome == Threw(Uninitialized("gitHash"))
      ensures gitHash.Some? && generators.None? ==> outcome == Threw(Uninitialized("generators"))
      ensures outcome.Threw? ==> dataSink.trace == old(dataSink.trace) + [Clean] && written == []
      ensures outcome.Threw? ==> dataSink.files == Cleaned(dataSink, old(dataSink.files))
      ensures outcome.Completed? ==>
        dataSink.files == Persisted(Cleaned(dataSink, old(dataSink.files)), written, dataSink.failingPaths)
      ensures outcome.Completed? ==>
        && dataSink.trace == old(dataSink.trace) + [Clean] + WriteEvents(written) + [PostClean]
        && multiset(written) <= multiset(Units())
        && (forall i :: 0 <= i < |written| - 1 ==> written[i].relativePath !in dataSink.failingPaths)
        && ((!RunFails() && forall u :: u in Units() ==> u.relativePath !in dataSink.failingPaths)
              ==> multiset(written) == multiset(Units()))
    {
      var cleaned := dataSink.Clean();
      written := [];
      // `cleaned` only chooses which info line is logged.

      if gitHash.None? {
        outcome := Threw(Uninitialized("gitHash"));
        return;
      }
      var templateFiles: seq<Publisher> := [Publisher([MetadataUnit(gitHash.value)], false)];
      if generators.None? {
        outcome := Threw(Uninitialized("generators"));
        return;
      }
      var collected := CollectPublishers(generators.value);
      if collected.Thrown? {
        outcome := Threw(collected.message);
        return;
      }
      templateFiles := templateFiles + collected.value;
      assert templateFiles == TemplatePublishers(gitHash.value, collected.value);

      written := WriteUnits(dataSink, Enumerated(templateFiles), StreamFails(collected.value));
      dataSink.PostClean();
      outcome := Completed;
    }
  }
}
