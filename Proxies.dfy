/** LatencyMonitoredProxy: the invocation handler that times every call on the proxied
    interfaces and keeps one latency monitor per attribute key, readable as JMX attributes.
    The com.github and com.yuga handlers share everything modelled here except how `invoke`
    treats a failed call: `Invoke` rethrows (com.github), `InvokeWrapping` wraps (com.yuga). */
module Proxies {
  import opened JavaLang
  import opened TimeUnits
  import opened CircularBuffers
  import opened LatencyMonitors
  import opened Naming
  import opened Invocation

  /** One interface of `types()`, with the methods `getDeclaredMethods()` reports. */
  datatype Interface = Interface(cls: JavaClass, declaredMethods: seq<JavaMethod>)

  /** The JMXLatencyMonitored settings the handler reads (the bean name only labels JMX
      output; the naming strategy class is the strategy it instantiates). */
  datatype Settings = Settings(
    types: seq<Interface>,
    addAllMonitorsAtStartup: bool,
    sampleSize: nat,
    units: TimeUnit,
    namingStrategy: NamingStrategy)

  /** The annotation's defaults. */
  const DEFAULT_ADD_ALL_MONITORS_AT_STARTUP := true
  const DEFAULT_SAMPLE_SIZE: nat := 100
  const DEFAULT_UNITS := MILLISECONDS
  const DEFAULT_NAMING_STRATEGY := DefaultNaming

  /** The settings of an annotation that names only its interfaces. */
  function DefaultSettings(types: seq<Interface>): Settings
  {
    Settings(types, DEFAULT_ADD_ALL_MONITORS_AT_STARTUP, DEFAULT_SAMPLE_SIZE, DEFAULT_UNITS, DEFAULT_NAMING_STRATEGY)
  }

  /** The `Class[]` handed to the naming strategy as `allTypes`. */
  function AllTypes(types: seq<Interface>): (classes: seq<JavaClass>)
    ensures |classes| == |types|
    ensures forall i :: 0 <= i < |types| ==> classes[i] == types[i].cls
  {
    seq(|types|, i requires 0 <= i < |types| => types[i].cls)
  }

  /** createKey: the configured strategy's name for method `m` looked up on interface `t`. */
  function Key(s: Settings, t: JavaClass, m: JavaMethod): string
  {
    AttributeName(s.namingStrategy, Some(AllTypes(s.types)), t, m)
  }

  /** The keys pre-population creates for one interface, in declaration order. */
  function InterfaceKeys(s: Settings, iface: Interface): (keys: seq<string>)
    ensures |keys| == |iface.declaredMethods|
    ensures forall j :: 0 <= j < |keys| ==> keys[j] == Key(s, iface.cls, iface.declaredMethods[j])
  {
    seq(|iface.declaredMethods|, j requires 0 <= j < |iface.declaredMethods| => Key(s, iface.cls, iface.declaredMethods[j]))
  }

  /** The keys pre-population creates for `types`, interface by interface. */
  function KeysOf(s: Settings, types: seq<Interface>): seq<string>
  {
    if types == [] then [] else KeysOf(s, types[..|types| - 1]) + InterfaceKeys(s, types[|types| - 1])
  }

  /** A key comes out of pre-population exactly when it names some declared method of some
      listed interface. */
  lemma {:induction false} KeysOfIff(s: Settings, types: seq<Interface>, key: string)
    ensures key in KeysOf(s, types) <==>
      exists i, j :: 0 <= i < |types| && 0 <= j < |types[i].declaredMethods| &&
        key == Key(s, types[i].cls, types[i].declaredMethods[j])
  {
    if types != [] {
      var init, last := types[..|types| - 1], types[|types| - 1];
      KeysOfIff(s, init, key);
      if key in InterfaceKeys(s, last) {
        var j :| 0 <= j < |last.declaredMethods| && InterfaceKeys(s, last)[j] == key;
        assert types[|types| - 1] == last;
      }
      if exists i, j :: (0 <= i < |types| && 0 <= j < |types[i].declaredMethods| &&
                         key == Key(s, types[i].cls, types[i].declaredMethods[j]))
      {
        var i, j :| 0 <= i < |types| && 0 <= j < |types[i].declaredMethods| &&
          key == Key(s, types[i].cls, types[i].declaredMethods[j]);
        if i < |types| - 1 {
          assert types[i] == init[i];
        } else {
          assert InterfaceKeys(s, last)[j] == key;
        }
      }
    }
  }

  /** An annotation that names only its interfaces pre-populates, and under its default
      naming strategy two overloads declared by one listed interface get two monitors: both
      keys are created at startup and they differ. */
  lemma DefaultSettingsSeparateOverloads(types: seq<Interface>, i: nat, j1: nat, j2: nat)
    requires i < |types| && j1 < |types[i].declaredMethods| && j2 < |types[i].declaredMethods|
    requires types[i].declaredMethods[j1].name == types[i].declaredMethods[j2].name
    requires '(' !in types[i].declaredMethods[j1].name
    requires AllFree(TypeNames(types[i].declaredMethods[j1].parameterTypes), ',')
    requires AllFree(TypeNames(types[i].declaredMethods[j2].parameterTypes), ',')
    requires TypeNames(types[i].declaredMethods[j1].parameterTypes) != TypeNames(types[i].declaredMethods[j2].parameterTypes)
    ensures DefaultSettings(types).addAllMonitorsAtStartup
    ensures Key(DefaultSettings(types), types[i].cls, types[i].declaredMethods[j1]) in KeysOf(DefaultSettings(types), types)
    ensures Key(DefaultSettings(types), types[i].cls, types[i].declaredMethods[j2]) in KeysOf(DefaultSettings(types), types)
    ensures Key(DefaultSettings(types), types[i].cls, types[i].declaredMethods[j1]) !=
      Key(DefaultSettings(types), types[i].cls, types[i].declaredMethods[j2])
  {
    var s, t := DefaultSettings(types), types[i].cls;
    var m1, m2 := types[i].declaredMethods[j1], types[i].declaredMethods[j2];
    KeysOfIff(s, types, Key(s, t, m1));
    KeysOfIff(s, types, Key(s, t, m2));
    OverloadsCollideOnlyUnderSimpleNaming(Some(AllTypes(types)), t, m1, m2);
  }

  /** `map` only grows: every key of `before` is still there, bound to the same monitor. */
  ghost predicate Extends<K, V>(before: map<K, V>, after: map<K, V>)
  {
    forall k :: k in before ==> k in after && after[k] == before[k]
  }

  /** `after` keeps every history of `before` and holds no sample under any other key. */
  ghost predicate AddsEmpty(before: map<string, seq<Long>>, after: map<string, seq<Long>>)
  {
    && (forall k :: k in before ==> k in after && after[k] == before[k])
    && (forall k :: k in after && k !in before ==> after[k] == [])
  }

  /** Adding empty histories twice adds empty histories. */
  lemma AddsEmptyTrans(a: map<string, seq<Long>>, b: map<string, seq<Long>>, c: map<string, seq<Long>>)
    requires AddsEmpty(a, b) && AddsEmpty(b, c)
    ensures AddsEmpty(a, c)
  {
  }

  /** A second binding of the same key replaces the first. */
  lemma UpdateTwice(m: map<string, seq<Long>>, key: string, first: seq<Long>, second: seq<Long>)
    ensures m[key := first][key := second] == m[key := second]
  {
  }

  /** Binding a key to what it is bound to changes nothing. */
  lemma UpdateSame(m: map<string, seq<Long>>, key: string)
    requires key in m
    ensures m[key := m[key]] == m
  {
  }

  /** A prefix one longer is the prefix and the next element. */
  lemma PrefixStep<T>(s: seq<T>, i: nat)
    requires i < |s|
    ensures s[..i + 1] == s[..i] + [s[i]]
  {
  }

  /** The distinct elements of a sequence. */
  function Elements(s: seq<string>): (e: set<string>)
    ensures forall x :: x in e <==> x in s
  {
    set x | x in s
  }

  /** The elements of a prefix one longer. */
  lemma ElementsStep(s: seq<string>, j: nat)
    requires j < |s|
    ensures Elements(s[..j + 1]) == Elements(s[..j]) + {s[j]}
  {
    assert s[..j + 1] == s[..j] + [s[j]];
  }

  /** Binding a new key extends a map by exactly that key. */
  lemma BindExtends<K, V>(m: map<K, V>, key: K, value: V)
    requires key !in m
    ensures Extends(m, m[key := value]) && m[key := value].Keys == m.Keys + {key}
  {
  }

  /** What a monitor's attribute shows before the unit's name: its average as a decimal
      `long`. */
  function AverageText(history: seq<Long>, capacity: nat, unit: TimeUnit): string
    requires capacity > 0 || history == []
  {
    LongToString(Average(Replay(history, capacity), unit))
  }

  /** The attribute text loses nothing: it reads back as the monitor's average. */
  lemma AverageTextReadsBack(history: seq<Long>, capacity: nat, unit: TimeUnit)
    requires capacity > 0 || history == []
    ensures ParseLong(AverageText(history, capacity, unit)) == Average(Replay(history, capacity), unit)
  {
    LongToStringRoundTrip(Average(Replay(history, capacity), unit));
  }

  /** One attribute of an AttributeList. */
  datatype Attribute = Attribute(name: string, value: string)

  /** getLatencyValue's answer: the attribute text, or the AttributeNotFoundException. */
  datatype LatencyValue = Value(text: string) | AttributeNotFound(message: string)

  /** No two keys share a monitor's buffer object or its slot array. */
  ghost predicate Separate(ms: map<string, SimpleLatencyMonitor>)
  {
    forall k1, k2 :: k1 in ms && k2 in ms && k1 != k2 ==>
      ms[k1].samples != ms[k2].samples && ms[k1].samples.buffer != ms[k2].samples.buffer
  }

  /** A monitor whose objects lie outside `owned`, bound beside monitors whose objects lie
      inside it, shares nothing with them. */
  lemma SeparateBind(ms: map<string, SimpleLatencyMonitor>, key: string, m: SimpleLatencyMonitor, owned: set<object>)
    requires Separate(ms) && key !in ms
    requires forall k :: k in ms ==> ms[k].samples in owned && ms[k].samples.buffer in owned
    requires m.samples !in owned && m.samples.buffer !in owned
    ensures Separate(ms[key := m])
  {
  }

  class LatencyMonitoredProxy {
    const annotation: Settings
    var monitors: map<string, SimpleLatencyMonitor>
    var notificationSequence: Int
    const timeUnitSuffix: string
    ghost var Repr: set<object>
    /** The samples recorded so far under each key. */
    ghost var histories: map<string, seq<Long>>

    /** The handler owns every monitor's buffer; no two keys share one. */
    ghost predicate Valid()
      reads this, Repr
    {
      && this in Repr
      && histories.Keys == monitors.Keys
      && (forall k :: k in monitors ==> monitors[k].samples in Repr && monitors[k].samples.buffer in Repr)
      && (forall k :: k in monitors ==> Fits(monitors[k]) && monitors[k].samples.history == histories[k])
      && Separate(monitors)
      && timeUnitSuffix == " " + Name(annotation.units)
    }

    /** A monitor as this handler creates it: a buffer of `sampleSize` slots, in the
        configured unit. */
    ghost predicate Fits(m: SimpleLatencyMonitor)
      reads m.samples, m.samples.buffer
    {
      m.Valid() && m.samples.buffer.Length == annotation.sampleSize && m.timeUnit == annotation.units
    }

    /** A monitor this handler may take in: fitting, and owned by nobody here yet. */
    ghost predicate Foreign(m: SimpleLatencyMonitor)
      reads this, m.samples, m.samples.buffer
    {
      Fits(m) && m.samples !in Repr && m.samples.buffer !in Repr
    }

    /** The samples a key holds before a call: its monitor's, the racing caller's monitor's
        when that is what the key is about to get, or none. */
    ghost function HistoryBefore(key: string, raced: Option<SimpleLatencyMonitor>): seq<Long>
      requires Valid()
      reads this, Repr, if raced.Some? then {raced.value.samples} else {}
    {
      if key in monitors then histories[key]
      else if raced.Some? then raced.value.samples.history
      else []
    }

    /** The text of attribute `name`: the average in the configured unit followed by the
        unit's name, or nothing for a key without a monitor. */
    ghost function AttributeText(name: string): string
      requires Valid()
      reads this, Repr
    {
      if name in monitors then
        AverageText(histories[name], annotation.sampleSize, annotation.units) + timeUnitSuffix
      else ""
    }

    /** The constructor: no monitor, or, with `addAllMonitorsAtStartup`, one new monitor for
        every key of every declared method of every listed interface. */
    constructor (settings: Settings)
      ensures Valid() && fresh(Repr)
      ensures annotation == settings && notificationSequence == 1
      ensures settings.addAllMonitorsAtStartup ==> monitors.Keys == Elements(KeysOf(settings, settings.types))
      ensures !settings.addAllMonitorsAtStartup ==> monitors == map[]
      ensures forall k :: k in histories ==> histories[k] == []
    {
      annotation := settings;
      monitors := map[];
      histories := map[];
      notificationSequence := 1;
      timeUnitSuffix := " " + Name(settings.units);
      Repr := {this};
      new;
      if settings.addAllMonitorsAtStartup {
        for i := 0 to |settings.types|
          invariant Valid() && fresh(Repr)
          invariant annotation == settings && notificationSequence == 1
          invariant monitors.Keys == Elements(KeysOf(settings, settings.types[..i]))
          invariant AddsEmpty(map[], histories)
        {
          assert settings.types[..i + 1][..i] == settings.types[..i];
          ghost var before := histories;
          AddInterfaceMonitors(settings.types[i]);
          AddsEmptyTrans(map[], before, histories);
        }
        assert settings.types[..|settings.types|] == settings.types;
      }
    }

    /** One turn of the constructor's outer loop: for each declared method of `iface`, a new
        monitor offered under its key with putIfAbsent. */
    method AddInterfaceMonitors(iface: Interface)
      requires Valid()
      modifies this
      ensures Valid() && fresh(Repr - old(Repr))
      ensures monitors.Keys == old(monitors).Keys + Elements(InterfaceKeys(annotation, iface))
      ensures Extends(old(monitors), monitors)
      ensures AddsEmpty(old(histories), histories)
      ensures notificationSequence == old(notificationSequence)
    {
      ghost var keys := InterfaceKeys(annotation, iface);
      for j := 0 to |iface.declaredMethods|
        invariant Valid() && fresh(Repr - old(Repr))
        invariant monitors.Keys == old(monitors).Keys + Elements(keys[..j])
        invariant Extends(old(monitors), monitors)
        invariant AddsEmpty(old(histories), histories)
        invariant notificationSequence == old(notificationSequence)
      {
        var key := CreateKey(iface.cls, iface.declaredMethods[j]);
        ghost var before := histories;
        AddMonitor(key);
        AddsEmptyTrans(old(histories), before, histories);
        ElementsStep(keys, j);
        assert monitors.Keys == old(monitors).Keys + Elements(keys[..j + 1]);
        assert AddsEmpty(old(histories), histories);
      }
      assert keys[..|keys|] == keys;
    }

    /** One turn of the inner loop: a new monitor offered under `key` with putIfAbsent, so a
        key bound already keeps its monitor and an unbound one gets an empty monitor. */
    method AddMonitor(key: string)
      requires Valid()
      modifies this
      ensures Valid() && fresh(Repr - old(Repr))
      ensures monitors.Keys == old(monitors).Keys + {key}
      ensures Extends(old(monitors), monitors)
      ensures AddsEmpty(old(histories), histories)
      ensures notificationSequence == old(notificationSequence)
    {
      var monitor := new SimpleLatencyMonitor(annotation.sampleSize, annotation.units);
      var _ := PutIfAbsent(key, monitor);
    }

    /** createKey: asks the configured strategy. */
    method CreateKey(t: JavaClass, m: JavaMethod) returns (key: string)
      ensures key == Key(annotation, t, m)
    {
      match annotation.namingStrategy
      case DefaultNaming =>
        key := GetAttributeName(Some(AllTypes(annotation.types)), t, m);
      case SimpleNaming =>
        key := m.name;
    }

    /** `monitors.putIfAbsent(key, monitor)`: binds `key` only if it is unbound, and returns
        the monitor already bound (null when there was none). */
    method PutIfAbsent(key: string, monitor: SimpleLatencyMonitor) returns (existing: Option<SimpleLatencyMonitor>)
      requires Valid() && Foreign(monitor)
      modifies this
      ensures Valid()
      ensures key in old(monitors) ==>
        existing == Some(old(monitors)[key]) && monitors == old(monitors) && Repr == old(Repr) &&
        histories == old(histories)
      ensures key !in old(monitors) ==>
        existing == None && monitors == old(monitors)[key := monitor] && Repr == old(Repr) + monitor.Repr() &&
        histories == old(histories)[key := monitor.samples.history]
      ensures notificationSequence == old(notificationSequence)
    {
      if key in monitors {
        existing := Some(monitors[key]);
      } else {
        existing := None;
        SeparateBind(monitors, key, monitor, Repr);
        monitors, histories, Repr := monitors[key := monitor], histories[key := monitor.samples.history], Repr + monitor.Repr();
      }
    }

    /** sendNotification: the next sequence number (an `int`, so it wraps). */
    method SendNotification()
      requires Valid()
      modifies this
      ensures Valid() && Repr == old(Repr) && monitors == old(monitors) && histories == old(histories)
      ensures notificationSequence == IncInt(old(notificationSequence))
    {
      notificationSequence := IncInt(notificationSequence);
    }

    /** getMonitor. A key already bound keeps its monitor. Otherwise a new monitor is offered
        with putIfAbsent; `raced` is the monitor a concurrent caller for the same key bound
        between this caller's lookup and its putIfAbsent (None when there was no such race).
        Losing the race adopts the winner's monitor and, unless monitors were all created at
        startup, sends a notification. */
    method GetMonitor(key: string, raced: Option<SimpleLatencyMonitor>) returns (monitor: SimpleLatencyMonitor)
      requires Valid()
      requires raced.Some? ==> Foreign(raced.value)
      modifies this
      ensures Valid() && fresh(Repr - old(Repr) - (if raced.Some? then raced.value.Repr() else {}))
      ensures key in monitors && monitors[key] == monitor
      ensures Extends(old(monitors), monitors) && monitors.Keys == old(monitors).Keys + {key}
      ensures key in old(monitors) ==>
        monitors == old(monitors) && notificationSequence == old(notificationSequence)
      ensures key !in old(monitors) && raced.None? ==>
        fresh(monitor) && monitor.samples.history == [] && notificationSequence == old(notificationSequence)
      ensures key !in old(monitors) && raced.Some? ==>
        monitor == raced.value &&
        notificationSequence == if annotation.addAllMonitorsAtStartup then old(notificationSequence)
                                else IncInt(old(notificationSequence))
      ensures notificationSequence == if key !in old(monitors) && raced.Some? && !annotation.addAllMonitorsAtStartup
                                      then IncInt(old(notificationSequence)) else old(notificationSequence)
      ensures histories == old(histories)[key := old(HistoryBefore(key, raced))]
    {
      if key in monitors {
        monitor := monitors[key];
        UpdateSame(histories, key);
        return;
      }
      monitor := new SimpleLatencyMonitor(annotation.sampleSize, annotation.units);
      if raced.Some? {
        var _ := PutIfAbsent(key, raced.value);
      }
      var existing := PutIfAbsent(key, monitor);
      BindExtends(old(monitors), key, monitors[key]);
      if existing.Some? && existing.value != monitor {
        monitor := existing.value;
        if !annotation.addAllMonitorsAtStartup {
          SendNotification();
        }
      }
    }

    /** getLatencyValue: the attribute's text for a bound key; for an unbound one, "" when
        suppressed and an AttributeNotFoundException otherwise. Changes nothing. */
    method GetLatencyValue(name: string, suppressNotFoundException: bool) returns (result: LatencyValue)
      requires Valid()
      ensures name in monitors ==> result == Value(AttributeText(name))
      ensures name !in monitors && suppressNotFoundException ==> result == Value("")
      ensures name !in monitors && !suppressNotFoundException ==>
        result == AttributeNotFound(name + " is not a valid attribute")
    {
      if name in monitors {
        var average := monitors[name].GetAverage();
        result := Value(LongToString(average) + timeUnitSuffix);
      } else if !suppressNotFoundException {
        result := AttributeNotFound(name + " is not a valid attribute");
      } else {
        result := Value("");
      }
    }

    /** getAttribute: the throwing lookup. */
    method GetAttribute(name: string) returns (result: LatencyValue)
      requires Valid()
      ensures result.Value? <==> name in monitors
      ensures result.Value? ==> result.text == AttributeText(name)
      ensures result.AttributeNotFound? ==> result.message == name + " is not a valid attribute"
    {
      result := GetLatencyValue(name, false);
    }

    /** getAttributes: one attribute per requested name, in request order; an unknown name
        gets "" and never an exception. */
    method GetAttributes(names: seq<string>) returns (list: seq<Attribute>)
      requires Valid()
      ensures |list| == |names|
      ensures forall i :: 0 <= i < |names| ==> list[i] == Attribute(names[i], AttributeText(names[i]))
    {
      ghost var expected := seq(|names|, k reads this, Repr requires 0 <= k < |names| && Valid() =>
        Attribute(names[k], AttributeText(names[k])));
      list := [];
      for i := 0 to |names|
        invariant list == expected[..i]
      {
        var value := "";
        var found := GetLatencyValue(names[i], true);
        if found.Value? {
          value := found.text;
        }
        assert Attribute(names[i], value) == expected[i];
        PrefixStep(expected, i);
        list := list + [Attribute(names[i], value)];
      }
      assert expected[..|names|] == expected;
    }

    /** The `finally` block after a normal return: looks up (or creates) the monitor for the
        method's key and adds `end - start`, computed in `long` arithmetic. With a sample
        size of 0 the buffer's `index % length` throws, and that ArithmeticException is what
        the caller gets. */
    method RecordCall(m: JavaMethod, start: Long, end: Long, raced: Option<SimpleLatencyMonitor>)
      returns (failure: Option<Throwable>)
      requires Valid()
      requires raced.Some? ==> Foreign(raced.value)
      modifies Repr, if raced.Some? then raced.value.Repr() else {}
      ensures Valid()
      ensures Extends(old(monitors), monitors)
      ensures monitors.Keys == old(monitors).Keys + {Key(annotation, m.declaringClass, m)}
      ensures failure.None? <==> annotation.sampleSize > 0
      ensures failure.Some? ==> failure.value == ArithmeticException()
      ensures var key := Key(annotation, m.declaringClass, m);
        histories == old(histories)[key := old(HistoryBefore(key, raced)) +
          (if annotation.sampleSize > 0 then [WrapLong(end - start)] else [])]
      ensures var key := Key(annotation, m.declaringClass, m);
        notificationSequence == if key !in old(monitors) && raced.Some? && !annotation.addAllMonitorsAtStartup
                                then IncInt(old(notificationSequence)) else old(notificationSequence)
    {
      var key := CreateKey(m.declaringClass, m);
      ghost var before := HistoryBefore(key, raced);
      var monitor := GetMonitor(key, raced);
      ghost var looked := histories;
      assert looked == old(histories)[key := before];
      var duration := WrapLong(end - start);
      if monitor.samples.buffer.Length == 0 {
        assert before + [] == before;
        return Some(ArithmeticException());
      }
      AddSampleAt(key, duration);
      failure := None;
      UpdateTwice(old(histories), key, before, before + [duration]);
    }

    /** `monitor.addSample(duration)` on the monitor bound to `key`: that key's samples grow
        by one and no other key's change. */
    method AddSampleAt(key: string, duration: Long)
      requires Valid() && key in monitors && annotation.sampleSize > 0
      modifies this, monitors[key].samples, monitors[key].samples.buffer
      ensures Valid() && monitors == old(monitors) && Repr == old(Repr)
      ensures histories == old(histories)[key := old(histories)[key] + [duration]]
      ensures notificationSequence == old(notificationSequence)
    {
      var monitor := monitors[key];
      monitor.AddSample(duration);
      histories := histories[key := histories[key] + [duration]];
      forall k | k in monitors && k != key
        ensures monitors[k].samples.history == histories[k] && Fits(monitors[k])
      {
        assert monitors[k].samples != monitor.samples;
      }
    }

    /** invoke, com.github: calls through; on a normal return records the call's duration
        under the key of the method's declaring class and returns the value unchanged; a
        failed call records nothing and rethrows (RethrowingResult). */
    method Invoke<V>(m: JavaMethod, outcome: CallOutcome<V>, start: Long, end: Long, raced: Option<SimpleLatencyMonitor>)
      returns (result: CallResult<V>)
      requires Valid()
      requires raced.Some? ==> Foreign(raced.value)
      modifies Repr, if raced.Some? then raced.value.Repr() else {}
      ensures Valid()
      ensures outcome.Returned? ==>
        var key := Key(annotation, m.declaringClass, m);
        && Extends(old(monitors), monitors)
        && monitors.Keys == old(monitors).Keys + {key}
        && histories == old(histories)[key := old(HistoryBefore(key, raced)) +
             (if annotation.sampleSize > 0 then [WrapLong(end - start)] else [])]
        && notificationSequence == (if key !in old(monitors) && raced.Some? && !annotation.addAllMonitorsAtStartup
                                    then IncInt(old(notificationSequence)) else old(notificationSequence))
        && result == if annotation.sampleSize > 0 then Return(outcome.value) else Throw(ArithmeticException())
      ensures !outcome.Returned? ==>
        result == RethrowingResult(outcome) && monitors == old(monitors) && histories == old(histories) &&
        notificationSequence == old(notificationSequence)
    {
      if outcome.Returned? {
        var failure := RecordCall(m, start, end, raced);
        if failure.Some? {
          result := Throw(failure.value);
        } else {
          result := Return(outcome.value);
        }
      } else {
        result := RethrowingResult(outcome);
      }
    }

    /** invoke, com.yuga: the same recording, but every Exception from the call becomes a
        RuntimeException carrying the caught message (WrappingResult). */
    method InvokeWrapping<V>(m: JavaMethod, outcome: CallOutcome<V>, start: Long, end: Long, raced: Option<SimpleLatencyMonitor>)
      returns (result: CallResult<V>)
      requires Valid()
      requires raced.Some? ==> Foreign(raced.value)
      modifies Repr, if raced.Some? then raced.value.Repr() else {}
      ensures Valid()
      ensures outcome.Returned? ==>
        var key := Key(annotation, m.declaringClass, m);
        && Extends(old(monitors), monitors)
        && monitors.Keys == old(monitors).Keys + {key}
        && histories == old(histories)[key := old(HistoryBefore(key, raced)) +
             (if annotation.sampleSize > 0 then [WrapLong(end - start)] else [])]
        && notificationSequence == (if key !in old(monitors) && raced.Some? && !annotation.addAllMonitorsAtStartup
                                    then IncInt(old(notificationSequence)) else old(notificationSequence))
        && result == if annotation.sampleSize > 0 then Return(outcome.value) else Throw(ArithmeticException())
      ensures !outcome.Returned? ==>
        result == WrappingResult(outcome) && monitors == old(monitors) && histories == old(histories) &&
        notificationSequence == old(notificationSequence)
    {
      if outcome.Returned? {
        var failure := RecordCall(m, start, end, raced);
        if failure.Some? {
          result := Throw(failure.value);
        } else {
          result := Return(outcome.value);
        }
      } else {
        result := WrappingResult(outcome);
      }
    }
  }

  /** The exception `index % 0` throws. */
  function ArithmeticException(): Throwable
  {
    Throwable("java.lang.ArithmeticException", Some("/ by zero"), None, true)
  }
}
