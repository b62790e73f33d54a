/** The process-wide logger state: configuration, version counter, categories and per-thread caches. */
module LogEnv {
  import opened Option
  import opened Text
  import opened LogBuffer
  import opened Dispatch
  import opened Category
  import opened Pattern
  import opened Render

  /** A loaded configuration: formats by output, one cache per time format, rules, and the buffer sizes. */
  datatype Conf = Conf(formats: seq<seq<Spec>>, fmts: seq<string>, rules: seq<Rule>, bufMin: nat, bufMax: nat)

  ghost predicate Sound(conf: Conf) {
    && (forall f :: 0 <= f < |conf.formats| ==> Indexed(conf.formats[f], 0, conf.fmts))
    && AllNamed(conf.rules)
    && AllWellMade(conf.rules)
  }

  /** The format that an output writes with. */
  function FormatOf(conf: Conf, action: nat): (specs: seq<Spec>) {
    if action < |conf.formats| then conf.formats[action] else []
  }

  function FormatsOf(conf: Conf, actions: seq<nat>): (outputs: seq<seq<Spec>>)
    ensures |outputs| == |actions|
    ensures forall k :: 0 <= k < |actions| ==> outputs[k] == FormatOf(conf, actions[k])
  {
    if actions == [] then [] else FormatsOf(conf, actions[..|actions| - 1]) + [FormatOf(conf, actions[|actions| - 1])]
  }

  /** The formats of the outputs that the rules ask for at a level. */
  function OutputsFor(conf: Conf, name: string, level: nat): (outputs: seq<seq<Spec>>)
    requires AllNamed(conf.rules)
  {
    FormatsOf(conf, Actions(FitRules(name, conf.rules), level))
  }

  /**
   Where some rule matches the category, a log call writes once for every rule that matches and wants the level,
   in the order of the rules, with the format of the rule's own output.
   */
  lemma OutputsMean(conf: Conf, name: string, i: nat, level: nat) returns (positions: seq<nat>)
    requires AllNamed(conf.rules) && i < |conf.rules| && Matches(conf.rules[i], name)
    ensures |positions| == |OutputsFor(conf, name, level)|
    ensures forall k :: 0 <= k < |positions| ==> positions[k] < |conf.rules|
    ensures forall k :: 0 <= k < |positions| && conf.rules[positions[k]].action < |conf.formats| ==>
        OutputsFor(conf, name, level)[k] == conf.formats[conf.rules[positions[k]].action]
    ensures forall k, l :: 0 <= k < l < |positions| ==> positions[k] < positions[l]
    ensures forall j :: 0 <= j < |conf.rules| ==>
        (j in positions <==>
           Matches(conf.rules[j], name) && Wants(conf.rules[j].compare, conf.rules[j].level, level))
  {
    positions := MatchingActions(name, conf.rules, i, level);
  }

  /**
   Every pattern becomes a format of its own. The time specs of each are numbered from the count that the earlier
   patterns left; whether a pattern is accepted does not depend on that count.
   */
  method LoadConf(patterns: seq<string>, rules: seq<Rule>, bufMin: nat, bufMax: nat)
      returns (conf: Option<Conf>, counts: seq<nat>)
    requires AllNamed(rules) && AllWellMade(rules)
    ensures conf.Some? <==> forall k :: 0 <= k < |patterns| ==> Accepted(patterns[k])
    ensures conf.Some? ==> |conf.value.formats| == |patterns| && |counts| == |patterns| + 1 && counts[0] == 0
    ensures conf.Some? ==> forall k :: 0 <= k < |patterns| ==>
              FormatMeans(patterns[k], conf.value.formats[k], counts[k], counts[k + 1])
    ensures conf.Some? ==> Loaded(patterns, conf.value.formats, counts, conf.value.fmts) && Sound(conf.value)
    ensures conf.Some? ==> conf.value.rules == rules && conf.value.bufMin == bufMin && conf.value.bufMax == bufMax
  {
    var formats: seq<seq<Spec>>, fmts: seq<string> := [], [];
    counts := [0];
    for k := 0 to |patterns|
      invariant Loaded(patterns[..k], formats, counts, fmts)
      invariant forall l :: 0 <= l < k ==> Accepted(patterns[l])
    {
      AcceptedMeans(patterns[k], |fmts|);
      var format := CompilePattern(patterns[k], |fmts|);
      if format.None? {
        return None, counts;
      }
      LoadNext(patterns, k, formats, counts, fmts, format.value);
      formats, counts := formats + [format.value.specs], counts + [format.value.timeCount];
      fmts := fmts + TimeFormats(format.value.specs);
    }
    assert patterns[..|patterns|] == patterns;
    forall k | 0 <= k < |patterns|
      ensures Indexed(formats[k], 0, fmts) && FormatMeans(patterns[k], formats[k], counts[k], counts[k + 1])
    {
      LoadedMeans(patterns, formats, counts, fmts, k);
    }
    conf := Some(Conf(formats, fmts, rules, bufMin, bufMax));
  }

  const MARKER := "...\n"

  /** What zlog_buf_new demands of the sizes; the marker is always short enough. */
  predicate SizesFit(bufMin: nat, bufMax: nat) {
    bufMin != 0 && (bufMax == 0 || bufMin <= bufMax)
  }

  /** A reload that failed and did not leave the categories as they were. */
  ghost predicate Damaged(rc: int, before: map<string, CategoryState>, after: map<string, CategoryState>) {
    rc != 0 && after != before
  }

  /**
   The part of a thread's record that outlives a log call: the buffers by their sizes, since every call
   restarts them.
   */
  datatype ThreadRecord = ThreadRecord(version: nat, event: Event, bufMin: nat, bufMax: nat)

  /** The thread's buffers are kept when they have the configured sizes, and allocated anew otherwise. */
  predicate BuffersRebuilt(record: ThreadRecord, conf: Conf, granted: bool) {
    (record.bufMin == conf.bufMin && record.bufMax == conf.bufMax) || (granted && SizesFit(conf.bufMin, conf.bufMax))
  }

  function WithSizes(record: ThreadRecord, conf: Conf): (r: ThreadRecord) {
    record.(bufMin := conf.bufMin, bufMax := conf.bufMax)
  }

  /** Whether zlog_fetch_thread succeeds, given which of its allocations do: the buffers and the event. */
  predicate Served(threads: map<nat, ThreadRecord>, t: nat, version: nat, conf: Conf, buffers: bool, event: bool) {
    if t !in threads then buffers && event && SizesFit(conf.bufMin, conf.bufMax)
    else threads[t].version == version || (BuffersRebuilt(threads[t], conf, buffers) && event)
  }

  /**
   A new thread needs both allocations and fitting sizes, one of the current version needs nothing, and one of an
   older version a new event, and new buffers when the sizes have changed.
   */
  lemma ServedMeans(threads: map<nat, ThreadRecord>, t: nat, version: nat, conf: Conf, buffers: bool, event: bool)
    ensures var sizes := conf.bufMin != 0 && (conf.bufMax == 0 || conf.bufMin <= conf.bufMax);
            && (t !in threads ==> (Served(threads, t, version, conf, buffers, event) <==> buffers && event && sizes))
            && (t in threads && threads[t].version == version ==> Served(threads, t, version, conf, buffers, event))
            && (t in threads && threads[t].version != version ==>
                  var same := threads[t].bufMin == conf.bufMin && threads[t].bufMax == conf.bufMax;
                  (Served(threads, t, version, conf, buffers, event) <==> event && (same || (buffers && sizes))))
  {
  }

  /** A thread's record fits a configuration. */
  ghost predicate Current(record: ThreadRecord, conf: Conf)
    reads record.event
  {
    record.event.Valid(conf.fmts) && record.bufMin == conf.bufMin && record.bufMax == conf.bufMax
  }

  /** Threads of the current version fit the current configuration; every event belongs to one thread. */
  ghost predicate ThreadsOk(isInit: bool, conf: Option<Conf>, version: nat, threads: map<nat, ThreadRecord>,
                            calendar: Calendar)
    reads set t | t in threads :: threads[t].event
  {
    && (isInit ==> conf.Some? && Sound(conf.value))
    && (forall t :: t in threads ==>
          && threads[t].version <= version && threads[t].event.calendar == calendar && threads[t].event.owner == t
          && SizesFit(threads[t].bufMin, threads[t].bufMax))
    && (forall t :: t in threads && isInit && threads[t].version == version ==> Current(threads[t], conf.value))
  }

  /** Categories are those of the current rules, as long as no reload has damaged them. */
  ghost predicate TableOk(isInit: bool, damaged: bool, conf: Option<Conf>, table: CategoryTable)
    reads table, table.categories.Values
  {
    table.Valid() && (isInit && !damaged ==> conf.Some? && Sound(conf.value) && table.AllUpToDate(conf.value.rules))
  }

  /** A new version outdates every record, so any sound configuration goes with it. */
  lemma NewVersionOk(isInit: bool, conf: Option<Conf>, version: nat, threads: map<nat, ThreadRecord>,
                     calendar: Calendar, loaded: Conf)
    requires ThreadsOk(isInit, conf, version, threads, calendar) && Sound(loaded)
    ensures ThreadsOk(true, Some(loaded), version + 1, threads, calendar)
  {
  }

  /** A record replaced by one with a new event, current or still outdated. */
  lemma RecordReplacedOk(conf: Conf, version: nat, threads: map<nat, ThreadRecord>, calendar: Calendar, t: nat,
                         record: ThreadRecord)
    requires ThreadsOk(true, Some(conf), version, threads, calendar)
    requires record.event.calendar == calendar && record.event.owner == t && record.version <= version
    requires SizesFit(record.bufMin, record.bufMax) && (record.version == version ==> Current(record, conf))
    ensures ThreadsOk(true, Some(conf), version, threads[t := record], calendar)
  {
  }

  class LogEnv {
    const calendar: Calendar
    var conf: Option<Conf>
    var isInit: bool
    var version: nat
    var table: CategoryTable
    var threads: map<nat, ThreadRecord>
    /** A failed reload has taken the rules away from some category. */
    ghost var damaged: bool

    ghost predicate ThreadsValid()
      reads this, set t | t in threads :: threads[t].event
    {
      ThreadsOk(isInit, conf, version, threads, calendar)
    }

    ghost predicate TableValid()
      reads this, table, table.categories.Values
    {
      TableOk(isInit, damaged, conf, table)
    }

    ghost predicate Valid()
      reads this, table, table.categories.Values, set t | t in threads :: threads[t].event
    {
      ThreadsValid() && TableValid()
    }

    constructor (calendar: Calendar)
      ensures Valid() && !isInit && fresh(table) && this.calendar == calendar && threads == map[] && !damaged
    {
      this.calendar := calendar;
      conf, isInit, version, threads := None, false, 0, map[];
      table := new CategoryTable();
      damaged := false;
    }

    /** zlog_init: refused when already initialised; a failed load leaves the logger uninitialised. */
    method Init(loaded: Option<Conf>) returns (rc: int)
      requires Valid() && (loaded.Some? ==> Sound(loaded.value))
      modifies this`conf, this`isInit, this`version, this`table, this`damaged
      ensures Valid()
      ensures rc == (if !old(isInit) && loaded.Some? then 0 else -1)
      ensures rc == 0 ==>
        isInit && conf == loaded && version == old(version) + 1 && fresh(table) && table.categories == map[] && !damaged
      ensures rc != 0 ==> isInit == old(isInit) && version == old(version) && damaged == old(damaged)
    {
      if isInit {
        return -1;
      }
      if loaded.None? {
        conf := None;
        return -1;
      }
      NewVersionOk(isInit, conf, version, threads, calendar, loaded.value);
      conf := loaded;
      table := new CategoryTable();
      isInit, version, damaged := true, version + 1, false;
      return 0;
    }

    method Fini()
      requires Valid()
      modifies this`conf, this`isInit, this`table
      ensures Valid() && !isInit
    {
      if isInit {
        conf := None;
        table := new CategoryTable();
        isInit := false;
      }
    }

    /** zlog_get_category: an existing category, or a new one with the current rules. */
    method GetCategory(name: string, budget: nat) returns (c: Category?)
      requires Valid() && isInit
      modifies table
      ensures Valid() && table == old(table)
      ensures c == null <==>
        name !in old(table.categories) && (MAXLEN_PATH < |name| || !Suffices(name, conf.value.rules, budget))
      ensures c != null ==> table.categories == old(table.categories)[name := c]
      ensures c != null && name !in old(table.categories) ==> fresh(c) && c.State() == Built(name, conf.value.rules)
      ensures c == null ==> table.categories == old(table.categories)
    {
      c := table.FetchCategory(name, conf.value.rules, budget);
    }

    /**
     zlog_fetch_thread: a new thread gets a record, an outdated one buffers of the current sizes and a new event.
     The two flags say whether the allocations succeed; sizes that zlog_buf_new refuses fail as well. When only
     the event fails, an outdated record has its new buffers already.
     */
    method FetchThread(t: nat, info: EventInfo, buffers: bool, event: bool) returns (ok: bool)
      requires Valid() && isInit && Representable(info, Stamp(0, 0))
      modifies this`threads
      ensures Valid()
      ensures ok <==> Served(old(threads), t, version, conf.value, buffers, event)
      ensures ok ==> t in threads && threads[t].version == version && Current(threads[t], conf.value)
      ensures ok ==> (t in old(threads) && threads == old(threads))
                     || (threads == old(threads)[t := threads[t]] && fresh(threads[t].event))
      ensures !ok ==>
        threads == if t in old(threads) && BuffersRebuilt(old(threads)[t], conf.value, buffers)
                   then old(threads)[t := WithSizes(old(threads)[t], conf.value)]
                   else old(threads)
    {
      var conf := conf.value;
      if t in threads && threads[t].version == version {
        return true;
      }
      var rebuilt := if t in threads then BuffersRebuilt(threads[t], conf, buffers)
                     else buffers && SizesFit(conf.bufMin, conf.bufMax);
      if !rebuilt {
        return false;
      }
      if !event {
        if t in threads {
          SetRecord(t, WithSizes(threads[t], conf));
        }
        return false;
      }
      var made := new Event(calendar, |conf.fmts|, info, conf.fmts, t);
      SetRecord(t, ThreadRecord(version, made, conf.bufMin, conf.bufMax));
      return true;
    }

    /** A record that is current or outdated, with its own event. */
    method SetRecord(t: nat, record: ThreadRecord)
      requires Valid() && isInit && record.version <= version && SizesFit(record.bufMin, record.bufMax)
      requires record.event.calendar == calendar && record.event.owner == t
      requires record.version == version ==> Current(record, conf.value)
      modifies this`threads
      ensures Valid() && threads == old(threads)[t := record]
    {
      RecordReplacedOk(conf.value, version, threads, calendar, t, record);
      threads := threads[t := record];
    }

    /** In every run, the cached text of a time spec is the direct text of the event's one timestamp. */
    method LogTime(t: nat, f: nat, k: nat, info: EventInfo, now: Stamp) returns (text: string)
      requires Valid() && isInit && t in threads && threads[t].version == version
      requires f < |conf.value.formats| && k < |conf.value.formats[f]| && conf.value.formats[f][k].kind.Time?
      requires Representable(info, Stamp(0, 0)) && now.sec != 0 && now.usec < 1_000_000
      modifies threads[t].event
      ensures Valid()
      ensures text == calendar.format(conf.value.formats[f][k].kind.fmt, calendar.local(now.sec))
    {
      var event, kind := threads[t].event, conf.value.formats[f][k].kind;
      event.Set(info, conf.value.fmts);
      text := event.TimeText(kind.cacheIndex, kind.fmt, now, conf.value.fmts);
    }

    /** The scene of a log call of a current thread. */
    ghost function CallScene(info: EventInfo, self: nat): (scene: Scene)
      requires conf.Some?
      reads this
    {
      Scene(info, self, Stamp(0, 0), calendar, conf.value.bufMax, MARKER)
    }

    /**
     zlog() for a category and a level: the early bitmap test, the thread's record, and one message for every
     output that the rules ask for.
     */
    method Log(t: nat, name: string, level: nat, info: EventInfo, clocks: seq<seq<Stamp>>, self: nat,
               buffers: bool, event: bool)
      returns (ok: bool, messages: seq<Option<string>>, ghost stamps: seq<Stamp>)
      requires Valid() && isInit && !damaged && name in table.categories && level < 256
      requires Representable(info, Stamp(0, 0)) && self != 0
      requires Clocked(OutputsFor(conf.value, name, level), clocks)
      modifies this`threads, if t in threads then {threads[t].event} else {}
      ensures Valid()
      ensures var outputs := OutputsFor(conf.value, name, level);
              && (ok <==> outputs == [] || Served(old(threads), t, version, conf.value, buffers, event))
              && |messages| == (if ok then |outputs| else 0)
              && stamps != [] && stamps[0].sec == 0
              && Logged(messages, outputs, clocks, stamps, CallScene(info, self), conf.value.bufMax)
    {
      var outputs := Wanted(name, level);
      ok, messages, stamps := LogOutputs(t, info, outputs, clocks, self, buffers, event);
    }

    /** The formats of the outputs that the rules ask for. */
    method Wanted(name: string, level: nat) returns (outputs: seq<seq<Spec>>)
      requires Valid() && isInit && !damaged && name in table.categories && level < 256
      ensures outputs == OutputsFor(conf.value, name, level)
      ensures forall k :: 0 <= k < |outputs| ==> Indexed(outputs[k], 0, conf.value.fmts)
    {
      var actions := table.categories[name].Log(level, conf.value.rules);
      outputs := FormatsOf(conf.value, actions);
    }

    method LogOutputs(t: nat, info: EventInfo, outputs: seq<seq<Spec>>, clocks: seq<seq<Stamp>>, self: nat,
                      buffers: bool, event: bool)
      returns (ok: bool, messages: seq<Option<string>>, ghost stamps: seq<Stamp>)
      requires Valid() && isInit && Representable(info, Stamp(0, 0)) && self != 0 && Clocked(outputs, clocks)
      requires forall k :: 0 <= k < |outputs| ==> Indexed(outputs[k], 0, conf.value.fmts)
      modifies this`threads, if t in threads then {threads[t].event} else {}
      ensures Valid()
      ensures ok <==> outputs == [] || Served(old(threads), t, version, conf.value, buffers, event)
      ensures |messages| == if ok then |outputs| else 0
      ensures stamps != [] && stamps[0].sec == 0
      ensures Logged(messages, outputs, clocks, stamps, CallScene(info, self), conf.value.bufMax)
    {
      messages, stamps := [], [Stamp(0, 0)];
      if outputs == [] {
        return true, messages, stamps;
      }
      ok := FetchThread(t, info, buffers, event);
      if ok {
        messages, stamps := Write(t, info, outputs, clocks, self);
      }
    }

    method Write(t: nat, info: EventInfo, outputs: seq<seq<Spec>>, clocks: seq<seq<Stamp>>, self: nat)
      returns (messages: seq<Option<string>>, ghost stamps: seq<Stamp>)
      requires Valid() && isInit && t in threads && threads[t].version == version
      requires Representable(info, Stamp(0, 0)) && self != 0 && Clocked(outputs, clocks)
      requires forall k :: 0 <= k < |outputs| ==> Indexed(outputs[k], 0, conf.value.fmts)
      modifies threads[t].event
      ensures Valid() && |messages| == |outputs|
      ensures stamps != [] && stamps[0].sec == 0
      ensures Logged(messages, outputs, clocks, stamps, CallScene(info, self), conf.value.bufMax)
    {
      messages, stamps := WriteWith(threads[t], info, outputs, clocks, self, conf.value);
    }

    /** The buffers are restarted for every message, so new ones of the thread's sizes do as well. */
    static method WriteWith(record: ThreadRecord, info: EventInfo, outputs: seq<seq<Spec>>, clocks: seq<seq<Stamp>>,
                            self: nat, conf: Conf)
      returns (messages: seq<Option<string>>, ghost stamps: seq<Stamp>)
      requires Current(record, conf) && SizesFit(record.bufMin, record.bufMax)
      requires Representable(info, Stamp(0, 0)) && self != 0 && Clocked(outputs, clocks)
      requires forall k :: 0 <= k < |outputs| ==> Indexed(outputs[k], 0, conf.fmts)
      modifies record.event
      ensures Current(record, conf) && |messages| == |outputs|
      ensures stamps != [] && stamps[0].sec == 0
      ensures var scene := Scene(info, self, Stamp(0, 0), record.event.calendar, conf.bufMax, MARKER);
              Logged(messages, outputs, clocks, stamps, scene, conf.bufMax)
    {
      record.event.Set(info, conf.fmts);
      var preMsgBuf := new LogBuffer(record.bufMin, record.bufMax, MARKER);
      var msgBuf := new LogBuffer(record.bufMin, record.bufMax, MARKER);
      var thread := new Thread(record.version, record.event, preMsgBuf, msgBuf);
      messages, stamps := thread.OutputAll(outputs, clocks, self, conf.fmts);
    }

    /**
     zlog_reload. It succeeds exactly when the file loads and every category's allocations do. When a category
     update fails the flag that guards the rollback is cleared first: the old rules go on working when the file
     did not load, and are lost for some category when an allocation failed.
     */
    method Reload(loaded: Option<Conf>, budget: Budgets) returns (rc: int)
      requires Valid() && (loaded.Some? ==> Sound(loaded.value))
      modifies this`conf, this`version, this`damaged, this`isInit, table.categories.Values
      ensures Valid() && isInit == old(isInit)
      ensures !isInit ==> rc == 0 && conf == old(conf) && version == old(version)
      ensures isInit && rc == 0 ==> conf == loaded && version == old(version) + 1 && !damaged
      ensures isInit ==> rc == if loaded.Some? && table.Enough(loaded.value.rules, budget) then 0 else -1
      ensures rc != 0 ==> conf == old(conf) && version == old(version)
      ensures isInit && loaded.None? ==> damaged == old(damaged) && table.States() == old(table.States())
      ensures isInit && loaded.Some? && !table.Enough(loaded.value.rules, budget) ==> damaged && SomeWithoutRules()
      ensures isInit && old(table.AllSettled()) ==>
        (Damaged(rc, old(table.States()), table.States()) <==>
           loaded.Some? && !table.Enough(loaded.value.rules, budget))
    {
      if !isInit {
        return 0;
      }
      if loaded.None? {
        return -1;
      }
      rc := Swap(loaded.value, budget);
      if rc != 0 {
        ghost var k :| k in table.categories && table.categories[k].fitRules.None?;
        assert table.States()[k].fitRules.None? && old(table.States())[k] == old(table.categories[k].State());
      }
    }

    /** Some category has no rule list at all; logging to it is not possible any more. */
    ghost predicate SomeWithoutRules()
      reads this, table, table.categories.Values
    {
      exists k :: k in table.categories && table.categories[k].fitRules.None?
    }

    /** The part behind the loading of the file. */
    method Swap(loaded: Conf, budget: Budgets) returns (rc: int)
      requires Valid() && isInit && Sound(loaded)
      modifies this`conf, this`version, this`damaged, this`isInit, table.categories.Values
      ensures Valid() && isInit
      ensures rc == if table.Enough(loaded.rules, budget) then 0 else -1
      ensures if rc == 0 then conf == Some(loaded) && version == old(version) + 1 && !damaged
              else conf == old(conf) && version == old(version) && damaged && SomeWithoutRules()
    {
      ghost var failed;
      rc, failed := table.UpdateAndCommit(loaded.rules, budget);
      if rc == 0 {
        Accept(loaded);
      } else {
        Damage(failed.value);
      }
    }

    /** The categories are already those of the new configuration. */
    method Accept(loaded: Conf)
      requires ThreadsValid() && Sound(loaded) && TableOk(true, false, Some(loaded), table)
      modifies this`conf, this`version, this`damaged, this`isInit
      ensures Valid() && isInit && conf == Some(loaded) && version == old(version) + 1 && !damaged
    {
      NewVersionOk(isInit, conf, version, threads, calendar, loaded);
      isInit, version, conf, damaged := true, version + 1, Some(loaded), false;
    }

    ghost method Damage(name: string)
      requires ThreadsValid() && table.Valid() && name in table.categories && table.categories[name].fitRules.None?
      modifies this`damaged
      ensures Valid() && damaged && SomeWithoutRules()
    {
      damaged := true;
      assert name in table.categories && table.categories[name].fitRules.None?;
    }
  }

  lemma OneRuleFits(name: string, r: Rule)
    requires r.category == "*"
    ensures FitRules(name, [r]) == [r]
  {
    assert [r][..0] == [] && Matched(name, []) == [];
    assert Matched(name, [r]) == [] + [r];
  }

  /** A logger with one rule for all categories, and a category that has it. */
  method LoggerWithOneRule(calendar: Calendar, name: string, level: nat)
    returns (env: LogEnv, c: Category, conf: Conf)
    requires |name| <= MAXLEN_PATH && level < 256
    ensures fresh(env) && fresh(env.table) && fresh(c) && env.Valid() && env.isInit && env.conf == Some(conf)
    ensures env.threads == map[] && env.table.categories == map[name := c] && !env.damaged
    ensures Sound(conf) && |conf.rules| == 1 && c.fitRules == Some(conf.rules)
    ensures OutputsFor(conf, name, level) == [[Spec("hello", ConstText, Direct)]]
    ensures conf.bufMin == 1024 == conf.bufMax
  {
    env := new LogEnv(calendar);
    var r := NewRule("*", FromLevel, level, 0);
    conf := Conf([[Spec("hello", ConstText, Direct)]], [], [r], 1024, 1024);
    OneRuleFits(name, r);
    OneOutput(conf, name, level, [Spec("hello", ConstText, Direct)]);
    var rc := env.Init(Some(conf));
    var made := env.GetCategory(name, 2);
    c := made;
  }

  /** A reload of the same configuration whose first allocation fails takes its rule away from a category. */
  method FailedReloadLosesRules(calendar: Calendar, name: string, level: nat)
    returns (env: LogEnv, c: Category, rc: int, ghost before: Option<seq<Rule>>)
    requires |name| <= MAXLEN_PATH && level < 256
    ensures name in env.table.categories && c == env.table.categories[name]
    ensures rc == -1 && before.Some? && |before.value| == 1 && c.fitRules.None?
  {
    var conf;
    env, c, conf := LoggerWithOneRule(calendar, name, level);
    before := c.fitRules;
    rc := env.Reload(Some(conf), map[]);
  }

  lemma OneOutput(conf: Conf, name: string, level: nat, format: seq<Spec>)
    requires |conf.rules| == 1 && conf.rules[0].category == "*" && conf.rules[0].action == 0
    requires Wants(conf.rules[0].compare, conf.rules[0].level, level) && conf.formats == [format]
    ensures OutputsFor(conf, name, level) == [format]
  {
    var r := conf.rules[0];
    assert conf.rules == [r];
    OneRuleFits(name, r);
    assert [r][..0] == [] && Actions([], level) == [];
    assert Actions([r], level) == [] + [0];
    assert [0][..0] == [] && FormatsOf(conf, []) == [];
    assert FormatsOf(conf, [0]) == [] + [format];
  }

  lemma OneConstant(text: string, scene: Scene)
    ensures Delivered([Spec(text, ConstText, Direct)], scene, 1024) == if |text| < 1024 then Some(text) else None
  {
    var spec := Spec(text, ConstText, Direct);
    assert Piece(spec, scene) == Some(text);
    RenderedStep([spec], 0, scene);
    assert [spec][..1] == [spec] && [spec][..0] == [] && "" + text == text;
    assert Rendered([spec], scene) == text && Renderable([spec], scene);
  }

  lemma OneMessage(messages: seq<Option<string>>, text: string, now: Stamp, stamps: seq<Stamp>, scene: Scene)
    requires ReadsClock([now]) && |messages| == 1 && |text| < 1024
    requires Logged(messages, [[Spec(text, ConstText, Direct)]], [[now]], stamps, scene, 1024)
    ensures messages == [Some(text)]
  {
    var format := [Spec(text, ConstText, Direct)];
    assert Follows(messages[0], format, [now], stamps[0], stamps[1], scene, 1024);
    OneConstant(text, scene.(stamp := FirstReading(format, [now], stamps[0])));
  }

  /** The first log call of a new logger writes its message. */
  method LogHello(calendar: Calendar, name: string, level: nat, info: EventInfo, now: Stamp, self: nat)
    returns (messages: seq<Option<string>>)
    requires |name| <= MAXLEN_PATH && level < 256 && Representable(info, Stamp(0, 0)) && self != 0
    requires ReadsClock([now])
    ensures messages == [Some("hello")]
  {
    var env, c, conf := LoggerWithOneRule(calendar, name, level);
    var ok;
    ghost var stamps;
    ok, messages, stamps := env.Log(0, name, level, info, [[now]], self, true, true);
    OneMessage(messages, "hello", now, stamps, env.CallScene(info, self));
  }
}
