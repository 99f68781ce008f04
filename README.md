# jmx-latency-monitor in Dafny

A verified model of the core of jmx-latency-monitor. The library wraps a bean in a Java
dynamic proxy. The proxy times every call to the bean's interfaces. It keeps a rolling
average of the durations per method, and it publishes each average as a read-only JMX
attribute.

The model covers three pieces:

- **The sample buffer and the rolling average** (`CircularBuffers`, `LatencyMonitors`,
  `IndexOverflow`).
  - `SimpleCircularBuffer` is a class over an `array<Option<T>>`. `None` is Java's null.
  - A ghost `history` records every sample ever added. The function `Replay` gives the slots
    as a function of that history, and every method is proved against `Replay`.
  - `SimpleLatencyMonitor.GetAverage` is the `for` loop of `getAverage`, proved against the
    function `Average`. That function sums the filled slots in a wrapping `long`, divides
    by the capacity with Java's truncating `/`, and converts the quotient to the
    monitor's `TimeUnit`.
  - Lemmas give the average of an under-filled monitor and of a full one. Others prove that
    a full monitor depends on its last `N` samples only, and that samples in `[0, bound]`
    whose `N`-fold sum fits in a `long` average to a value in `[0, bound]`. Negative
    samples, or a total that overflows the `long`, are not bounded that way.
- **Attribute naming** (`Naming`).
  - `DefaultAttributeNamingStrategy` builds `[Iface::]name(p1,p2,...)` in a `StringBuffer`
    loop. The loop is proved against the function `DefaultAttributeName`.
  - Lemmas prove the shape of the key and when the prefix appears. They prove that the
    comma-joined parameter list splits back into the names, so default keys tell methods
    apart, and that overloads collide only under `SimpleAttributeNamingStrategy`.
- **The monitor registry and call recording of `LatencyMonitoredProxy`** (`Proxies`,
  `Invocation`).
  - The class `LatencyMonitoredProxy` has these fields:
    - `monitors`, a map from key to monitor that only ever grows by `putIfAbsent`;
    - the `notificationSequence` counter, a wrapping `int`;
    - the unit suffix;
    - a ghost map `histories` from each key to the samples recorded under it.
  - The class models:
    - pre-population at construction;
    - `getMonitor`, including the lost race that sends a notification;
    - the throwing and the tolerant attribute lookups;
    - `getAttributes`;
    - the `finally` block of `invoke` that records `end - start`.
  - The com.github and com.yuga handlers are the same class. They differ only in how
    `invoke` reports a failed call. `Invoke` rethrows the target exception (com.github) and
    `InvokeWrapping` wraps every exception in a `RuntimeException` (com.yuga). The lemma
    `HandlersAgreeIff` says exactly when the two give the caller the same result: the call
    returned, `Method.invoke` failed with an Error, or the implementation threw the very
    cause-less RuntimeException that the wrapping handler would make of its failure.
  - The table below cites the com.github handler. The com.yuga handler has the same code at
    other lines of its LatencyMonitoredProxy.java: the constructor at 85-125, `getMonitor`
    at 133-146, `sendNotification` at 149-157, `getLatencyValue` at 166-179,
    `getAttribute` at 205-208, `getAttributes` at 216-228 and `invoke` at 287-312.

Java's fixed-width arithmetic is written out in `JavaLang`:

- `long` and `int` wrap-around;
- `/` and `%` truncating toward zero;
- the decimal text that string concatenation gives a `long`, with its round trip.

`TimeUnits` holds the seven units, their nanosecond factors, `convert` and `toString`.

## Model

| member | source | states |
|---|---|---|
| JavaLang.WrapLong | src/main/java/com/yuga/latency/monitoring/utils/SimpleLatencyMonitor.java:63 | the `long` a sum lands on is congruent to it modulo 2^64, and is the sum itself when that fits |
| JavaLang.WrapInt | src/main/java/com/yuga/latency/monitoring/utils/SimpleCircularBuffer.java:36 | the `int` a value lands on is congruent to it modulo 2^32, and is the value itself when that fits |
| JavaLang.IncInt | src/main/java/com/github/yuga/gandikota/latency/monitoring/proxy/LatencyMonitoredProxy.java:213 | `i++` on an `int` adds one, except that MAX_VALUE becomes MIN_VALUE |
| JavaLang.WrapLongAdd | src/main/java/com/yuga/latency/monitoring/utils/SimpleLatencyMonitor.java:61-65 | wrapping the running `long` total after every addition gives the exact total wrapped once |
| JavaLang.JavaDiv | src/main/java/com/yuga/latency/monitoring/utils/SimpleLatencyMonitor.java:67 | `a / b` truncates toward zero: the quotient's bounds for a non-negative and for a negative dividend |
| JavaLang.JavaRem | src/main/java/com/yuga/latency/monitoring/utils/SimpleCircularBuffer.java:35 | `a % b` takes the sign of `a`, lies strictly within `b` of zero, and completes the truncating quotient |
| JavaLang.LongToStringRoundTrip | src/main/java/com/github/yuga/gandikota/latency/monitoring/proxy/LatencyMonitoredProxy.java:234 | the decimal text that `average + suffix` gives a `long` reads back as the same number |
| TimeUnits.NanosPer | src/main/java/com/yuga/latency/monitoring/utils/SimpleLatencyMonitor.java:67-68 | every unit's nanosecond factor is at least 1, and it is 1 only for NANOSECONDS |
| TimeUnits.Convert | src/main/java/com/yuga/latency/monitoring/utils/SimpleLatencyMonitor.java:67-68 | `convert(d, NANOSECONDS)` is `d` for NANOSECONDS, and otherwise the whole number of units in `d`, truncated toward zero, for either sign |
| CircularBuffers.ReplayUnderfull | src/main/java/com/yuga/latency/monitoring/utils/SimpleCircularBuffer.java:33-38 | after `m <= N` adds, slots `0..m-1` hold the samples in order and the rest are still null |
| CircularBuffers.ReplayRecent | src/main/java/com/yuga/latency/monitoring/utils/SimpleCircularBuffer.java:35-36 | each of the last `N` samples, number `k` in order of adds, sits in slot `k mod N` |
| CircularBuffers.ReplayRotated | src/main/java/com/yuga/latency/monitoring/utils/SimpleCircularBuffer.java:35-36 | a full buffer holds exactly the last `N` samples, rotated so that the oldest sits at slot `(m - N) mod N` |
| CircularBuffers.ReplayDependsOnLastN | src/main/java/com/yuga/latency/monitoring/utils/SimpleCircularBuffer.java:35-36 | two full buffers with the same last `N` samples and the same count modulo `N` have the same slots |
| CircularBuffers.SimpleCircularBuffer.constructor | src/main/java/com/yuga/latency/monitoring/utils/SimpleCircularBuffer.java:27-30 | a fresh array of `bufferSize` null slots, with the cursor at 0 |
| CircularBuffers.SimpleCircularBuffer.Add | src/main/java/com/yuga/latency/monitoring/utils/SimpleCircularBuffer.java:33-38 | writes the sample to slot `index mod length`, changes no other slot, and advances the cursor by exactly one; the slots stay the replay of the history |
| CircularBuffers.SimpleCircularBuffer.GetSnapshot | src/main/java/com/yuga/latency/monitoring/utils/SimpleCircularBuffer.java:41-49 | a fresh array equal to the buffer slot by slot; the buffer and cursor are untouched |
| CircularBuffers.SimpleCircularBuffer.Size | src/main/java/com/yuga/latency/monitoring/utils/SimpleCircularBuffer.java:51-53 | the capacity fixed at construction |
| CircularBuffers.SnapshotSurvivesAdd | src/main/java/com/yuga/latency/monitoring/utils/SimpleCircularBuffer.java:42-45 | a snapshot taken before an `add` still shows the slots as they were |
| IndexOverflow.AddAsWritten | src/main/java/com/yuga/latency/monitoring/utils/SimpleCircularBuffer.java:35-36 | with the `int` cursor as declared, `add` writes a slot exactly when the cursor is non-negative or its remainder is 0, and otherwise the array store throws |
| IndexOverflow.AddsBeforeWrap | src/main/java/com/yuga/latency/monitoring/utils/SimpleCircularBuffer.java:35-36 | each of the first 2^31 adds writes slot `k mod length` and advances the cursor to `k + 1` wrapped to `int` |
| IndexOverflow.AddFailsAtWrap | src/main/java/com/yuga/latency/monitoring/utils/SimpleCircularBuffer.java:20 | with 100 slots, add number 2^31 finds the cursor at MIN_VALUE and computes slot -48 |
| IndexOverflow.AddFailsSoonAfterWrap | src/main/java/com/yuga/latency/monitoring/utils/SimpleCircularBuffer.java:35-36 | with two or more slots, add number 2^31 or the one after it throws |
| LatencyMonitors.Average | src/main/java/com/yuga/latency/monitoring/utils/SimpleLatencyMonitor.java:52-69 | an empty snapshot averages to 0; in NANOSECONDS the average is the wrapped total divided by the slot count |
| LatencyMonitors.AccumulateStep | src/main/java/com/yuga/latency/monitoring/utils/SimpleLatencyMonitor.java:61-65 | one loop turn keeps the `long` running total equal to the wrapped total of the slots read, skipping a null slot |
| LatencyMonitors.TotalSkipsEmptySlot | src/main/java/com/yuga/latency/monitoring/utils/SimpleLatencyMonitor.java:62 | a null slot contributes nothing: emptying a slot lowers the total by exactly its sample |
| LatencyMonitors.NoSamplesAverageZero | src/main/java/com/yuga/latency/monitoring/utils/SimpleLatencyMonitor.java:52-69 | a monitor that has no samples yet averages to 0, whatever its capacity |
| LatencyMonitors.AverageUnderfull | src/main/java/com/yuga/latency/monitoring/utils/SimpleLatencyMonitor.java:67 | until the buffer fills, the sum of all samples is divided by the capacity, not by the number of samples |
| LatencyMonitors.AverageFull | src/main/java/com/yuga/latency/monitoring/utils/SimpleLatencyMonitor.java:52-69 | once full, the average is that of the last `N` samples, divided by `N` and converted |
| LatencyMonitors.AverageDependsOnLastN | src/main/java/com/yuga/latency/monitoring/utils/SimpleLatencyMonitor.java:42-44 | after at least `N` samples, histories that end in the same `N` samples give the same average |
| LatencyMonitors.AverageWithinSampleRange | src/main/java/com/yuga/latency/monitoring/utils/SimpleLatencyMonitor.java:59-68 | samples in `[0, bound]`, with `N * bound` within `long` range, average to a value in `[0, bound]` in every unit |
| LatencyMonitors.TenMillisecondSamples | src/main/java/com/yuga/latency/monitoring/utils/SimpleLatencyMonitor.java:67-68 | ten 1 ms samples in a 10-slot MILLISECONDS monitor average to 1 |
| LatencyMonitors.SimpleLatencyMonitor.constructor | src/main/java/com/yuga/latency/monitoring/utils/SimpleLatencyMonitor.java:24-27 | a fresh buffer of `sampleSize` empty slots and the given unit |
| LatencyMonitors.SimpleLatencyMonitor.AddSample | src/main/java/com/yuga/latency/monitoring/utils/SimpleLatencyMonitor.java:42-44 | the duration is appended to the buffer's samples unchanged |
| LatencyMonitors.SimpleLatencyMonitor.GetAverage | src/main/java/com/yuga/latency/monitoring/utils/SimpleLatencyMonitor.java:52-69 | the loop returns `Average` of the slots the history leaves, in the monitor's unit, and changes nothing |
| Naming.GetAttributeName | src/main/java/com/github/yuga/gandikota/latency/monitoring/proxy/naming/DefaultAttributeNamingStrategy.java:19-46 | the `first`-flag loop builds exactly the prefix, the name, `(`, the comma-joined type names and `)` |
| Naming.SplitJoin | src/main/java/com/github/yuga/gandikota/latency/monitoring/proxy/naming/DefaultAttributeNamingStrategy.java:34-43 | splitting the joined parameter list at its commas gives the comma-free type names back |
| Naming.JoinInjective | src/main/java/com/github/yuga/gandikota/latency/monitoring/proxy/naming/DefaultAttributeNamingStrategy.java:34-43 | different lists of non-empty, comma-free names join to different texts |
| Naming.DefaultKeyShape | src/main/java/com/github/yuga/gandikota/latency/monitoring/proxy/naming/DefaultAttributeNamingStrategy.java:33-44 | every default key ends in `)`; a method without parameters gets `name()` |
| Naming.PrefixIffMultipleTypes | src/main/java/com/github/yuga/gandikota/latency/monitoring/proxy/naming/DefaultAttributeNamingStrategy.java:23-25 | the key starts with `SimpleName::` if and only if `allTypes` is non-null with more than one element |
| Naming.DefaultKeyInjective | src/main/java/com/github/yuga/gandikota/latency/monitoring/proxy/naming/DefaultAttributeNamingStrategy.java:29-44 | two methods of one interface share a default key only if they have the same name and the same parameter type names |
| Naming.DistinctInterfacesDistinctKeys | src/main/java/com/github/yuga/gandikota/latency/monitoring/proxy/naming/DefaultAttributeNamingStrategy.java:23-25 | with several interfaces, methods of interfaces with different simple names never share a key |
| Naming.OverloadsCollideOnlyUnderSimpleNaming | src/main/java/com/github/yuga/gandikota/latency/monitoring/proxy/naming/SimpleAttributeNamingStrategy.java:7-8 | overloads share one key under the simple strategy and get two under the default one |
| Naming.SimpleKeyIgnoresContext | src/main/java/com/github/yuga/gandikota/latency/monitoring/proxy/naming/SimpleAttributeNamingStrategy.java:7-8 | two methods with the same name get the same simple key, whatever the proxied interfaces, the looked-up interface and the parameter types |
| Invocation.CaughtException | src/main/java/com/yuga/latency/monitoring/proxy/LatencyMonitoredProxy.java:297 | `catch (Exception e)` catches something exactly when the call did not return and did not fail with an Error; what it catches is the InvocationTargetException for an implementation failure and the failure itself for one of `Method.invoke` |
| Invocation.RethrowingResult | src/main/java/com/github/yuga/gandikota/latency/monitoring/proxy/LatencyMonitoredProxy.java:357-369 | a returned value passes through; a target exception is rethrown as it is; an InvocationTargetException with a null target becomes a RuntimeException with the prefixed message and the InvocationTargetException as cause; a failure of `Method.invoke` itself propagates |
| Invocation.WrappingResult | src/main/java/com/yuga/latency/monitoring/proxy/LatencyMonitoredProxy.java:293-298 | a returned value passes through; every caught Exception becomes a cause-less RuntimeException whose message is the prefix and the caught message |
| Invocation.HandlersAgreeIff | src/main/java/com/yuga/latency/monitoring/proxy/LatencyMonitoredProxy.java:297-298 | the two handlers give the same result if and only if the call returned, `Method.invoke` failed with an Error, or the implementation threw a cause-less RuntimeException whose message is the prefix followed by the InvocationTargetException's message (the one exception the wrapping handler reproduces exactly) |
| Proxies.DefaultSettingsSeparateOverloads | src/main/java/com/yuga/latency/monitoring/proxy/JMXLatencyMonitored.java:50-57 | an annotation that names only its interfaces pre-populates, and with its default naming strategy two overloads of one listed interface both get a key at startup, and the two keys differ |
| Proxies.KeysOfIff | src/main/java/com/github/yuga/gandikota/latency/monitoring/proxy/LatencyMonitoredProxy.java:124-137 | a key comes out of pre-population if and only if it is the key of some declared method of some listed interface |
| Proxies.AverageTextReadsBack | src/main/java/com/github/yuga/gandikota/latency/monitoring/proxy/LatencyMonitoredProxy.java:234 | the number in an attribute's text reads back as the monitor's average |
| Proxies.LatencyMonitoredProxy.constructor | src/main/java/com/github/yuga/gandikota/latency/monitoring/proxy/LatencyMonitoredProxy.java:95-143 | pre-population on: the keys are exactly those of every declared method of every interface, each with an empty monitor; off: no monitor; the sequence starts at 1 |
| Proxies.LatencyMonitoredProxy.AddInterfaceMonitors | src/main/java/com/github/yuga/gandikota/latency/monitoring/proxy/LatencyMonitoredProxy.java:124-137 | one outer turn adds exactly the interface's keys, keeps every earlier key's monitor and samples, and gives new keys no samples |
| Proxies.LatencyMonitoredProxy.AddMonitor | src/main/java/com/github/yuga/gandikota/latency/monitoring/proxy/LatencyMonitoredProxy.java:135 | offers a new empty monitor: the key set gains the key, and a duplicate key keeps its first monitor |
| Proxies.LatencyMonitoredProxy.CreateKey | src/main/java/com/github/yuga/gandikota/latency/monitoring/proxy/LatencyMonitoredProxy.java:146-148 | the key of the configured naming strategy, with all the configured interfaces as `allTypes` |
| Proxies.LatencyMonitoredProxy.PutIfAbsent | src/main/java/com/github/yuga/gandikota/latency/monitoring/proxy/LatencyMonitoredProxy.java:157 | a bound key keeps its monitor and the bound monitor is returned; an unbound key gets the monitor and null is returned |
| Proxies.LatencyMonitoredProxy.SendNotification | src/main/java/com/github/yuga/gandikota/latency/monitoring/proxy/LatencyMonitoredProxy.java:212-214 | the sequence goes up by exactly one, wrapping as an `int`; nothing else changes |
| Proxies.LatencyMonitoredProxy.GetMonitor | src/main/java/com/github/yuga/gandikota/latency/monitoring/proxy/LatencyMonitoredProxy.java:151-166 | a bound key returns its monitor and changes nothing; an unbound key gets one new entry; a fresh empty monitor without a race; the winner's monitor on a lost race, with one notification unless pre-populating |
| Proxies.LatencyMonitoredProxy.GetLatencyValue | src/main/java/com/github/yuga/gandikota/latency/monitoring/proxy/LatencyMonitoredProxy.java:229-242 | a bound key gives its average and `" " + unit`; an unbound key gives "" when suppressed and AttributeNotFoundException otherwise |
| Proxies.LatencyMonitoredProxy.GetAttribute | src/main/java/com/github/yuga/gandikota/latency/monitoring/proxy/LatencyMonitoredProxy.java:268-271 | a value exactly for a bound key; otherwise AttributeNotFoundException with the key in its message |
| Proxies.LatencyMonitoredProxy.GetAttributes | src/main/java/com/github/yuga/gandikota/latency/monitoring/proxy/LatencyMonitoredProxy.java:279-291 | one attribute per requested name, in request order, with "" for an unknown name |
| Proxies.LatencyMonitoredProxy.RecordCall | src/main/java/com/github/yuga/gandikota/latency/monitoring/proxy/LatencyMonitoredProxy.java:370-381 | existing monitors stay; the declaring class's key gets `end - start` (wrapped to `long`) appended to its samples, and no other key's samples change; with 0 slots nothing is appended and it throws ArithmeticException; the sequence goes up by one exactly when the key was new, a racing caller won, and pre-population is off |
| Proxies.LatencyMonitoredProxy.AddSampleAt | src/main/java/com/github/yuga/gandikota/latency/monitoring/proxy/LatencyMonitoredProxy.java:376 | adding to one key's monitor grows that key's samples by one and leaves every other key's samples alone |
| Proxies.LatencyMonitoredProxy.Invoke | src/main/java/com/github/yuga/gandikota/latency/monitoring/proxy/LatencyMonitoredProxy.java:351-383 | a normal return keeps every existing monitor, records one sample under the key (none with 0 slots, which throws ArithmeticException), moves the sequence exactly as getMonitor does, and returns the value unchanged; a failed call changes nothing and ends as RethrowingResult says |
| Proxies.LatencyMonitoredProxy.InvokeWrapping | src/main/java/com/yuga/latency/monitoring/proxy/LatencyMonitoredProxy.java:287-312 | a normal return keeps every existing monitor, records one sample under the key (none with 0 slots, which throws ArithmeticException), moves the sequence exactly as getMonitor does, and returns the value unchanged; a failed call changes nothing and ends as WrappingResult says |

## Left out

- JMX machinery is not modelled. This covers `getMBeanInfo`, the Notification object and its payload, `setAttribute`, `setAttributes` and `invoke(String, ...)`. Only the notification counter is kept.
- Reflection and proxy generation are foreign calls. This covers `Proxy.newProxyInstance`, `Method.invoke`, and instantiating the naming strategy by its class. The wrapped call is an input (`CallOutcome`). The naming strategy is one of the two known ones. A strategy class that fails to instantiate is not modelled.
- The com.github handler's monitor factory lookup, `getLatencyMonitorFactory`, is not modelled. It reads a system property and uses `Class.forName`. The model always builds the default `SimpleLatencyMonitor`.
- The com.github tree's own `SimpleLatencyMonitor` and `SimpleCircularBuffer` are not part of this model. Both handlers use the com.yuga buffer and monitor.
- The com.yuga tree's naming strategy classes are not part of this model. Both handlers use the com.github `DefaultAttributeNamingStrategy` and `SimpleAttributeNamingStrategy`.
- The com.yuga handler's `new LatencyMonitor(...)`, an interface, is modelled as constructing a `SimpleLatencyMonitor`.
- `System.nanoTime` is not called. `start` and `end` are parameters of `Invoke` and `RecordCall`.
- Concurrency is modelled sequentially. This covers the `synchronized (buffer)` blocks and the atomicity of `ConcurrentHashMap`.
- Proxies.LatencyMonitoredProxy.GetMonitor: the only race modelled is another caller binding the same key between the lookup and `putIfAbsent`. That race is a parameter (`raced`), and the winner's samples are taken as they were when it won.
- A null attribute name is not modelled. Model strings cannot be null; in Java `getAttribute` and `getAttributes` would end in the NullPointerException of `ConcurrentHashMap.get(null)`.
- Logging, the Spring `BeanPostProcessor` glue and the demo `main` of the buffer are not modelled.
- The `source` argument of the naming strategies is not modelled, because neither strategy reads it.
- Proxies.Settings: `sampleSize` is a `nat`. A negative sample size, which makes Java's array allocation throw NegativeArraySizeException, is not modelled.
- A sample size of 0 is allowed. `getAverage` then returns 0, and the first recorded call throws ArithmeticException from `index % 0` (`RecordCall`).
- The class comment of `DefaultAttributeNamingStrategy` shows a space after each comma in the key. The code appends a bare `,`, and the model follows the code.
- Naming.DefaultKeyInjective, Naming.JoinInjective and Naming.PrefixIffMultipleTypes are stated for names as Java produces them. Parameter type names are non-empty and have no `,`; method names have no `(` or `:`. Arbitrary strings are not covered.
- CircularBuffers.SimpleCircularBuffer.Add: the cursor is unbounded. The declared `int` cursor and the exception it leads to after 2^31 adds are modelled separately in `IndexOverflow` (see Findings).

## Findings

| source | as written | input that shows it | evidently intended | confidence | as-written member | corrected member |
|---|---|---|---|---|---|---|
| src/main/java/com/yuga/latency/monitoring/utils/SimpleCircularBuffer.java:35-36 | the `int` cursor `index` is incremented on every `add` and reduced with `%`; after 2^31 adds it wraps to MIN_VALUE and the remainder turns negative | 2^31 adds to a 100-slot buffer: add number 2^31 computes slot -48 and throws ArrayIndexOutOfBoundsException; the cursor is then stuck, so every later add throws too | sample number `k` always goes to slot `k mod length`, however many samples came before | not executed | IndexOverflow.AddFailsSoonAfterWrap | CircularBuffers.SimpleCircularBuffer.Add |
