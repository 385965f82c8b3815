/** The du_cli flasher: a directory scan and a deploy loop that agree on one plan. */
module Flasher {
  import opened Payload
  import opened Text

  const SZ_4M: nat := 0x40_0000

  /** A file name: a number and a suffix, 0 for .l1pt, 1 for .pt and 2 for .patch. */
  datatype Name = Name(number: nat, suffix: nat)

  const SUFFIXES: nat := 3

  type Dir = map<Name, seq<byte>>

  // ---------- the scan ----------

  ghost function Above(dir: Dir, i: nat): set<Name> {
    set n | n in dir && n.number >= i
  }

  lemma StrictSubset<T>(a: set<T>, b: set<T>, x: T)
    requires a <= b && x in b && x !in a
    ensures |a| < |b|
  {
    Subset(a, b - {x});
  }

  lemma {:induction false} Subset<T>(a: set<T>, b: set<T>)
    requires a <= b
    ensures |a| <= |b|
  {
    if a != {} {
      var x :| x in a;
      Subset(a - {x}, b - {x});
    }
  }

  lemma AboveShrinks(dir: Dir, i: nat, s: nat)
    requires Name(i, s) in dir
    ensures |Above(dir, i + 1)| < |Above(dir, i)|
  {
    StrictSubset(Above(dir, i + 1), Above(dir, i), Name(i, s));
  }

  /** The payloads counted from number i and suffix s on. */
  ghost function Counted(dir: Dir, i: nat, s: nat): seq<Name>
    decreases |Above(dir, i)|, SUFFIXES - s
  {
    if s >= SUFFIXES then []
    else if Name(i, s) in dir then
      AboveShrinks(dir, i, s);
      [Name(i, s)] + Counted(dir, i + 1, s)
    else Counted(dir, i, s + 1)
  }

  /** How many of the names have a suffix up to t. */
  ghost function UpTo(names: seq<Name>, t: nat): nat {
    if names == [] then 0 else (if names[0].suffix <= t then 1 else 0) + UpTo(names[1..], t)
  }

  /** Consecutive numbers from i, all in the directory. */
  ghost predicate Numbered(dir: Dir, i: nat, names: seq<Name>) {
    forall k :: 0 <= k < |names| ==> names[k] in dir && names[k].number == i + k
  }

  /** The suffixes in order, none before s. */
  ghost predicate Ordered(s: nat, names: seq<Name>) {
    && (forall k :: 0 <= k < |names| ==> s <= names[k].suffix < SUFFIXES)
    && (forall j, k :: 0 <= j < k < |names| ==> names[j].suffix <= names[k].suffix)
  }

  /** For each suffix the number after its last file has no such file. */
  ghost predicate Maximal(dir: Dir, i: nat, s: nat, names: seq<Name>) {
    forall t :: s <= t < SUFFIXES ==> Name(i + UpTo(names, t), t) !in dir
  }

  ghost predicate IsScan(dir: Dir, i: nat, s: nat, names: seq<Name>) {
    Numbered(dir, i, names) && Ordered(s, names) && Maximal(dir, i, s, names)
  }

  lemma {:induction false} NoneUpTo(names: seq<Name>, t: nat)
    requires forall k :: 0 <= k < |names| ==> names[k].suffix > t
    ensures UpTo(names, t) == 0
  {
    if names != [] {
      NoneUpTo(names[1..], t);
    }
  }

  lemma MaximalCons(dir: Dir, i: nat, s: nat, names: seq<Name>)
    requires names != [] && names[0].suffix == s
    ensures Maximal(dir, i, s, names) <==> Maximal(dir, i + 1, s, names[1..])
  {
    forall t: nat | s <= t
      ensures i + UpTo(names, t) == i + 1 + UpTo(names[1..], t)
    {
    }
  }

  lemma ScanCons(dir: Dir, i: nat, s: nat, names: seq<Name>)
    requires names != [] && names[0] == Name(i, s) && Name(i, s) in dir && s < SUFFIXES
    ensures IsScan(dir, i, s, names) <==> IsScan(dir, i + 1, s, names[1..])
  {
    MaximalCons(dir, i, s, names);
    var rest := names[1..];
    if IsScan(dir, i, s, names) {
      forall k | 0 <= k < |rest| ensures rest[k] == names[k + 1] {
      }
    } else if IsScan(dir, i + 1, s, rest) {
      forall k | 0 <= k < |names|
        ensures names[k] in dir && names[k].number == i + k && s <= names[k].suffix < SUFFIXES
      {
        if k > 0 {
          assert names[k] == rest[k - 1];
        }
      }
    }
  }

  lemma ScanSkip(dir: Dir, i: nat, s: nat, names: seq<Name>)
    requires Name(i, s) !in dir && s < SUFFIXES
    ensures IsScan(dir, i, s, names) <==> IsScan(dir, i, s + 1, names)
  {
    if IsScan(dir, i, s + 1, names) {
      NoneUpTo(names, s);
    }
    if IsScan(dir, i, s, names) && names != [] {
      assert names[0] == Name(i, names[0].suffix);
      assert names[0].suffix != s;
    }
  }

  lemma ScanStarts(dir: Dir, i: nat, s: nat, names: seq<Name>)
    requires Name(i, s) in dir && s < SUFFIXES && IsScan(dir, i, s, names)
    ensures names != [] && names[0] == Name(i, s)
  {
    assert UpTo(names, s) != 0;
    if names != [] && names[0].suffix != s {
      NoneUpTo(names, s);
    }
  }

  /** The names counted are the one scan of the directory. */
  lemma {:induction false} CountedExactly(dir: Dir, i: nat, s: nat, names: seq<Name>)
    ensures IsScan(dir, i, s, names) <==> names == Counted(dir, i, s)
    decreases |Above(dir, i)|, SUFFIXES - s
  {
    if s >= SUFFIXES {
      assert names != [] ==> !(s <= names[0].suffix < SUFFIXES);
    } else if Name(i, s) in dir {
      AboveShrinks(dir, i, s);
      if IsScan(dir, i, s, names) {
        ScanStarts(dir, i, s, names);
      }
      if names != [] && names[0] == Name(i, s) {
        ScanCons(dir, i, s, names);
        CountedExactly(dir, i + 1, s, names[1..]);
      }
    } else {
      ScanSkip(dir, i, s, names);
      CountedExactly(dir, i, s + 1, names);
    }
  }

  // ---------- one payload ----------

  datatype Chain = ChainA | ChainB | ChainC | ChainPersist | ChainInvalid

  /** What the surroundings do: which files can be opened and read through, which commands the
      update server carries out, the active chain read for each number, and the clock. */
  datatype Env = Env(
    opens: Name -> bool,
    readsThrough: Name -> bool,
    exec: nat -> bool,
    chain: nat -> Chain,
    clock: bool)

  /** The part of a file that a 32-bit length covers. */
  function Content(file: seq<byte>): seq<byte> {
    file[..|file| % TWO_TO_32]
  }

  predicate Readable(dir: Dir, env: Env, n: Name) {
    && n in dir && env.opens(n) && env.readsThrough(n)
    && HEADER_SIZE < |Content(dir[n])| <= SZ_4M
  }

  const PAD: seq<byte> := [0, 0, 0]

  /** Whether the C parser accepts these bytes; what the buffer holds behind them does not matter. */
  predicate Parses(content: seq<byte>) {
    Reading(content + PAD).Some? && StartsInside(Reading(content + PAD).value, |content|)
  }

  function PartitionName(content: seq<byte>): seq<byte>
    requires Parses(content)
  {
    Reading(content + PAD).value.name
  }

  lemma Le32Same(s: seq<byte>, t: seq<byte>, i: nat, n: nat)
    requires i + 4 <= n <= |s| && n <= |t| && s[..n] == t[..n]
    ensures Le32(s, i) == Le32(t, i)
  {
    assert forall j :: 0 <= j < n ==> s[j] == s[..n][j] == t[..n][j] == t[j];
  }

  lemma StaleBytes(s: seq<byte>, t: seq<byte>, n: nat)
    requires HEADER_SIZE < n && n + 3 <= |s| && n + 3 <= |t| && s[..n] == t[..n]
    requires Reading(s).Some? && StartsInside(Reading(s).value, n)
    ensures Reading(t).Some? && StartsInside(Reading(t).value, n)
    ensures Reading(t).value.name == Reading(s).value.name
  {
    var p := HEADER_SIZE + 4 + Le32(s, HEADER_SIZE);
    assert s[..8] == s[..n][..8] == t[..n][..8] == t[..8];
    Le32Same(s, t, HEADER_SIZE, n);
    Le32Same(s, t, p, n);
    assert s[HEADER_SIZE + 4..p] == s[..n][HEADER_SIZE + 4..p] == t[..n][HEADER_SIZE + 4..p] == t[HEADER_SIZE + 4..p];
  }

  lemma BufferParses(mem: seq<byte>, content: seq<byte>)
    requires HEADER_SIZE < |content| && |content| + 3 <= |mem| && mem[..|content|] == content
    ensures Reading(mem).Some? && StartsInside(Reading(mem).value, |content|) <==> Parses(content)
    ensures Parses(content) ==> Reading(mem).value.name == PartitionName(content)
  {
    var n := |content|;
    assert (content + PAD)[..n] == content;
    if Parses(content) {
      StaleBytes(content + PAD, mem, n);
    }
    if Reading(mem).Some? && StartsInside(Reading(mem).value, n) {
      StaleBytes(mem, content + PAD, n);
    }
  }

  predicate ForChainC(name: seq<byte>) {
    |name| >= 2 && name[0] == 0x43 && name[1] == 0x5F
  }

  predicate Bootable(chain: Chain) {
    chain.ChainA? || chain.ChainB? || chain.ChainC?
  }

  /** The payload parses, and there is a chain to send it to: the persistent one for level-1 tables, chain C
      for its partitions, and a chain that is not the active one for everything else. */
  predicate HasChain(dir: Dir, env: Env, n: Name)
    requires n in dir
  {
    && Parses(Content(dir[n]))
    && (n.suffix == 0 || ForChainC(PartitionName(Content(dir[n]))) || Bootable(env.chain(n.number)))
  }

  /** Everything about one payload that can be known before the update server is asked. */
  predicate Ready(dir: Dir, env: Env, n: Name) {
    Readable(dir, env, n) && HasChain(dir, env, n)
  }

  lemma StartsWithC(name: seq<byte>)
    ensures ForChainC(name) <==> [0x43, 0x5F] <= name
  {
  }

  /** A payload is ready exactly when its file can be opened and read, has between 17 bytes and 4 MB after
      the cut to 32 bits, and parses, and, if it is no level-1 table, its partition name starts with "C_" or
      the active chain is known to be A, B or C. */
  lemma ReadyExactly(dir: Dir, env: Env, n: Name)
    ensures Ready(dir, env, n) <==>
      && n in dir && env.opens(n) && env.readsThrough(n)
      && 17 <= |dir[n]| % 0x1_0000_0000 <= 0x40_0000
      && var content := dir[n][..|dir[n]| % 0x1_0000_0000];
      && Parses(content)
      && (n.suffix == 0 || [0x43, 0x5F] <= PartitionName(content) || env.chain(n.number) in {ChainA, ChainB, ChainC})
  {
    if n in dir && Parses(Content(dir[n])) {
      StartsWithC(PartitionName(Content(dir[n])));
    }
  }

  // ---------- commands and the plan ----------

  datatype Command =
    | ApplyPersistent(name: Name, chain: Chain, bytes: seq<byte>)
    | Apply(name: Name, chain: Chain, bytes: seq<byte>)
    | ReloadPt

  /** A payload goes out as it is in the directory, level-1 tables to the persistent chain, partitions
      of chain C to chain C, and everything else to chain B while A is active and to A otherwise. */
  predicate Proper(dir: Dir, env: Env, c: Command) {
    match c
    case ReloadPt => true
    case ApplyPersistent(n, chain, bytes) =>
      n in dir && n.suffix == 0 && bytes == Content(dir[n]) && chain == ChainPersist
    case Apply(n, chain, bytes) =>
      && n in dir && n.suffix != 0 && bytes == Content(dir[n]) && Parses(bytes)
      && if ForChainC(PartitionName(bytes)) then chain == ChainC
         else if env.chain(n.number) == ChainA then chain == ChainB
         else chain == ChainA && (env.chain(n.number) == ChainB || env.chain(n.number) == ChainC)
  }

  /** The chain a proper command goes to: the persistent one for level-1 tables and no other payload, C for
      partitions whose name starts with "C_", and else B while A is active and A while B or C is; never to
      the active chain unless the partition belongs to chain C. */
  lemma ChainOfCommand(dir: Dir, env: Env, c: Command, name: seq<byte>, active: Chain)
    requires !c.ReloadPt? && Proper(dir, env, c)
    requires active == env.chain(c.name.number) && (Parses(c.bytes) ==> name == PartitionName(c.bytes))
    ensures c.name in dir && c.bytes == dir[c.name][..|dir[c.name]| % 0x1_0000_0000]
    ensures if c.name.suffix == 0 then c.ApplyPersistent? && c.chain == ChainPersist else c.Apply? && Parses(c.bytes)
    ensures c.Apply? && [0x43, 0x5F] <= name ==> c.chain == ChainC
    ensures c.Apply? && !([0x43, 0x5F] <= name) ==>
      && (active == ChainA ==> c.chain == ChainB) && (active == ChainB ==> c.chain == ChainA)
      && (active == ChainC ==> c.chain == ChainA) && c.chain != active
  {
    StartsWithC(name);
  }

  datatype Step = Flash(name: Name) | Reload

  function StepOf(c: Command): Step {
    if c.ReloadPt? then Reload else Flash(c.name)
  }

  function StepsOf(log: seq<Command>): (steps: seq<Step>)
    ensures |steps| == |log|
  {
    seq(|log|, i requires 0 <= i < |log| => StepOf(log[i]))
  }

  /** A payload is flashed, and the partition table is reloaded right after a table. */
  function Steps(n: Name): seq<Step> {
    if n.suffix < 2 then [Flash(n), Reload] else [Flash(n)]
  }

  function Plan(names: seq<Name>): seq<Step> {
    if names == [] then [] else Plan(names[..|names| - 1]) + Steps(names[|names| - 1])
  }

  lemma {:induction false} PlanPrefix(names: seq<Name>, k: nat)
    requires k <= |names|
    ensures Plan(names[..k]) <= Plan(names)
  {
    if k == |names| {
      assert names[..k] == names;
    } else {
      var shorter := names[..|names| - 1];
      assert shorter[..k] == names[..k];
      PlanPrefix(shorter, k);
    }
  }

  lemma PlanNext(names: seq<Name>, k: nat)
    requires k < |names|
    ensures Plan(names[..k + 1]) == Plan(names[..k]) + Steps(names[k])
    ensures Plan(names[..k]) + Steps(names[k]) <= Plan(names)
  {
    assert names[..k + 1][..k] == names[..k];
    PlanPrefix(names, k + 1);
  }

  /** In the plan each payload is flashed once, and a level-1 table or a table is followed by its reload,
      a patch by the next payload. */
  lemma ReloadAfterTable(names: seq<Name>, k: nat)
    requires k < |names|
    ensures var at, next := |Plan(names[..k])|, |Plan(names[..k + 1])|;
      && at < next <= |Plan(names)| && Plan(names)[at] == Flash(names[k])
      && (if names[k].suffix in {0, 1} then next == at + 2 && Plan(names)[at + 1] == Reload else next == at + 1)
  {
    PlanNext(names, k);
    var upTo := Plan(names[..k]) + Steps(names[k]);
    assert upTo[|Plan(names[..k])|] == Steps(names[k])[0];
    assert names[k].suffix < 2 ==> upTo[|Plan(names[..k])| + 1] == Steps(names[k])[1];
  }

  // ---------- what the deploy loop finds ----------

  /** The first suffix from s on under which a number can be read. */
  function FirstReadable(dir: Dir, env: Env, i: nat, s: nat): (r: Option<nat>)
    ensures r.Some? ==> s <= r.value < SUFFIXES && Readable(dir, env, Name(i, r.value))
    decreases SUFFIXES - s
  {
    if s >= SUFFIXES then None
    else if Readable(dir, env, Name(i, s)) then Some(s)
    else FirstReadable(dir, env, i, s + 1)
  }

  /** No suffix before the one found can be read, and none at all when none is found. */
  lemma {:induction false} FirstReadableIsFirst(dir: Dir, env: Env, i: nat, s: nat)
    ensures var r := FirstReadable(dir, env, i, s);
      forall t :: s <= t < (if r.Some? then r.value else SUFFIXES) ==> !Readable(dir, env, Name(i, t))
    decreases SUFFIXES - s
  {
    if s < SUFFIXES && !Readable(dir, env, Name(i, s)) {
      FirstReadableIsFirst(dir, env, i, s + 1);
    }
  }

  /** The payloads the deploy loop comes to for this many numbers, until one cannot be found. */
  function Route(dir: Dir, env: Env, i: nat, s: nat, left: nat): (names: seq<Name>)
    ensures |names| <= left
    decreases left
  {
    var t := FirstReadable(dir, env, i, s);
    if left == 0 || t.None? then [] else [Name(i, t.value)] + Route(dir, env, i + 1, t.value, left - 1)
  }

  ghost predicate AllReadable(dir: Dir, env: Env, names: seq<Name>) {
    forall k :: 0 <= k < |names| ==> Readable(dir, env, names[k])
  }

  ghost predicate StraysAt(dir: Dir, env: Env, names: seq<Name>, k: nat) {
    && k < |names| && AllReadable(dir, env, names[..k]) && !Readable(dir, env, names[k])
    && FirstReadable(dir, env, names[k].number, names[k].suffix + 1).Some?
  }

  /** The first counted payload that cannot be read has a readable namesake with a later suffix. */
  ghost predicate Strays(dir: Dir, env: Env, names: seq<Name>) {
    exists k :: StraysAt(dir, env, names, k)
  }

  lemma StraysFirst(dir: Dir, env: Env, names: seq<Name>)
    requires names != [] && !Readable(dir, env, names[0])
    ensures Strays(dir, env, names) <==> FirstReadable(dir, env, names[0].number, names[0].suffix + 1).Some?
  {
    if FirstReadable(dir, env, names[0].number, names[0].suffix + 1).Some? {
      assert StraysAt(dir, env, names, 0);
    }
    forall k: nat | 0 < k < |names|
      ensures !StraysAt(dir, env, names, k)
    {
      assert names[..k][0] == names[0];
    }
  }

  lemma StraysLater(dir: Dir, env: Env, names: seq<Name>, k: nat)
    requires names != [] && Readable(dir, env, names[0])
    ensures !StraysAt(dir, env, names, 0)
    ensures StraysAt(dir, env, names, k + 1) <==> StraysAt(dir, env, names[1..], k)
  {
    var rest := names[1..];
    if k < |rest| {
      assert names[..k + 1] == [names[0]] + rest[..k];
      assert forall j :: 0 <= j < k ==> names[..k + 1][j + 1] == rest[..k][j];
    }
  }

  lemma StraysCons(dir: Dir, env: Env, names: seq<Name>)
    requires names != [] && Readable(dir, env, names[0])
    ensures Strays(dir, env, names) <==> Strays(dir, env, names[1..])
  {
    if k: nat :| StraysAt(dir, env, names, k) {
      StraysLater(dir, env, names, if k > 0 then k - 1 else 0);
      assert StraysAt(dir, env, names[1..], k - 1);
    }
    if k: nat :| StraysAt(dir, env, names[1..], k) {
      StraysLater(dir, env, names, k);
      assert StraysAt(dir, env, names, k + 1);
    }
  }

  /** The deploy loop keeps to the counted payloads exactly when they do not stray, and comes to all of
      them when all are readable. */
  lemma {:induction false} RouteExactly(dir: Dir, env: Env, i: nat, s: nat)
    ensures var names := Counted(dir, i, s);
      var route := Route(dir, env, i, s, |names|);
      && (route <= names <==> !Strays(dir, env, names))
      && (AllReadable(dir, env, names) ==> route == names)
    decreases |Above(dir, i)|, SUFFIXES - s
  {
    var names := Counted(dir, i, s);
    if s < SUFFIXES {
      if Name(i, s) in dir {
        AboveShrinks(dir, i, s);
        var rest := names[1..];
        assert rest == Counted(dir, i + 1, s);
        if Readable(dir, env, Name(i, s)) {
          RouteExactly(dir, env, i + 1, s);
          StraysCons(dir, env, names);
          PrefixCons(Name(i, s), Route(dir, env, i + 1, s, |rest|), rest);
          assert AllReadable(dir, env, names) ==> AllReadable(dir, env, rest);
        } else {
          StraysFirst(dir, env, names);
          assert Route(dir, env, i, s, |names|) != [] ==> Route(dir, env, i, s, |names|)[0].suffix > s;
        }
      } else {
        RouteExactly(dir, env, i, s + 1);
      }
    }
  }

  lemma PrefixCons(n: Name, a: seq<Name>, b: seq<Name>)
    ensures [n] + a <= [n] + b <==> a <= b
  {
    assert ([n] + a)[1..] == a && ([n] + b)[1..] == b;
    if [n] + a <= [n] + b {
      assert a == ([n] + b)[1..|a| + 1];
    }
  }

  /** Every number has one suffix at most. */
  ghost predicate OneSuffix(dir: Dir) {
    forall m, n :: m in dir && n in dir && m.number == n.number ==> m == n
  }

  /** A directory with one suffix a number never strays. */
  lemma OneSuffixKeeps(dir: Dir, env: Env)
    requires OneSuffix(dir)
    ensures !Strays(dir, env, Counted(dir, 1, 0))
  {
    var names := Counted(dir, 1, 0);
    CountedExactly(dir, 1, 0, names);
    forall k: nat | k < |names|
      ensures !StraysAt(dir, env, names, k)
    {
      assert names[k] in dir && names[k].number == 1 + k;
    }
  }

  /** An unreadable 1.l1pt beside a readable 1.pt: the scan counts the first, the loop takes the second. */
  lemma StraysExample(dir: Dir, env: Env, file: seq<byte>)
    requires dir == map[Name(1, 0) := [], Name(1, 1) := file] && HEADER_SIZE < |file| <= SZ_4M
    requires env.opens(Name(1, 1)) && env.readsThrough(Name(1, 1))
    ensures Counted(dir, 1, 0) == [Name(1, 0)]
    ensures Route(dir, env, 1, 0, 1) == [Name(1, 1)]
  {
    AboveShrinks(dir, 1, 0);
    assert Counted(dir, 2, 0) == Counted(dir, 2, 1) == Counted(dir, 2, 2) == Counted(dir, 2, 3) == [];
    assert !Readable(dir, env, Name(1, 0)) && Readable(dir, env, Name(1, 1));
    assert Route(dir, env, 2, 1, 0) == [];
  }

  // ---------- the log against the plan ----------

  lemma StepsMore(log: seq<Command>, c: Command)
    ensures StepsOf(log + [c]) == StepsOf(log) + [StepOf(c)]
  {
  }

  ghost predicate AllProper(dir: Dir, env: Env, log: seq<Command>) {
    log == [] || (AllProper(dir, env, log[..|log| - 1]) && Proper(dir, env, log[|log| - 1]))
  }

  lemma {:induction false} AllProperExactly(dir: Dir, env: Env, log: seq<Command>)
    ensures AllProper(dir, env, log) <==> forall j :: 0 <= j < |log| ==> Proper(dir, env, log[j])
  {
    if log != [] {
      var shorter := log[..|log| - 1];
      AllProperExactly(dir, env, shorter);
      assert forall j :: 0 <= j < |shorter| ==> shorter[j] == log[j];
    }
  }

  /** The commands from position a up to b are carried out. */
  ghost predicate CarriedOut(env: Env, a: nat, b: nat) {
    forall j :: a <= j < b ==> env.exec(j)
  }

  ghost predicate AllReady(dir: Dir, env: Env, names: seq<Name>) {
    names == [] || (AllReady(dir, env, names[..|names| - 1]) && Ready(dir, env, names[|names| - 1]))
  }

  lemma {:induction false} AllReadyExactly(dir: Dir, env: Env, names: seq<Name>)
    ensures AllReady(dir, env, names) <==> forall k :: 0 <= k < |names| ==> Ready(dir, env, names[k])
  {
    if names != [] {
      var shorter := names[..|names| - 1];
      AllReadyExactly(dir, env, shorter);
      assert forall k :: 0 <= k < |shorter| ==> shorter[k] == names[k];
    }
  }

  /** Everything is well: nothing is left to go wrong. */
  ghost predicate AllWell(dir: Dir, env: Env, names: seq<Name>) {
    env.clock && AllReady(dir, env, names) && CarriedOut(env, 0, |Plan(names)|)
  }

  /** Nothing goes wrong exactly when the clock can be read, every payload can be read, parses and has a
      chain to go to, and the server carries out every command of the plan. */
  lemma AllWellExactly(dir: Dir, env: Env, names: seq<Name>)
    ensures AllWell(dir, env, names) <==>
      && env.clock && AllReadable(dir, env, names)
      && (forall k :: 0 <= k < |names| ==> Readable(dir, env, names[k]) && HasChain(dir, env, names[k]))
      && (forall j :: 0 <= j < |Plan(names)| ==> env.exec(j))
  {
    AllReadyExactly(dir, env, names);
  }

  /** These payloads are through: everything asked of the server for them was carried out. */
  ghost predicate Through(dir: Dir, env: Env, log: seq<Command>, names: seq<Name>) {
    && StepsOf(log) == Plan(names) && AllProper(dir, env, log)
    && CarriedOut(env, 0, |log|) && AllReady(dir, env, names)
  }

  /** What one payload adds to the log, and whether it went through. */
  ghost predicate Outcome(dir: Dir, env: Env, before: seq<Command>, log: seq<Command>, n: Name, pass: bool) {
    && before <= log && StepsOf(log) <= StepsOf(before) + Steps(n)
    && (AllProper(dir, env, before) ==> AllProper(dir, env, log))
    && (pass <==> Ready(dir, env, n) && CarriedOut(env, |before|, |before| + |Steps(n)|))
    && (pass ==> StepsOf(log) == StepsOf(before) + Steps(n))
  }

  lemma NotReady(dir: Dir, env: Env, log: seq<Command>, n: Name)
    requires !Ready(dir, env, n)
    ensures Outcome(dir, env, log, log, n, false)
  {
  }

  lemma ProperMore(dir: Dir, env: Env, log: seq<Command>, c: Command)
    requires AllProper(dir, env, log) && Proper(dir, env, c)
    ensures AllProper(dir, env, log + [c])
  {
    assert (log + [c])[..|log|] == log;
  }

  lemma PrefixOfSum(u: seq<Step>, v: seq<Step>, w: seq<Step>)
    requires v <= w
    ensures u + v <= u + w
  {
  }

  lemma OneCarriedOut(env: Env, a: nat)
    ensures CarriedOut(env, a, a + 1) <==> env.exec(a)
    ensures CarriedOut(env, a, a + 2) <==> env.exec(a) && env.exec(a + 1)
  {
  }

  /** Only the flash command was issued. */
  lemma Flashed(dir: Dir, env: Env, before: seq<Command>, c: Command, n: Name, pass: bool)
    requires Ready(dir, env, n) && StepOf(c) == Flash(n) && Proper(dir, env, c) && pass == env.exec(|before|)
    requires !(pass && n.suffix < 2)
    ensures Outcome(dir, env, before, before + [c], n, pass)
  {
    StepsMore(before, c);
    PrefixOfSum(StepsOf(before), [Flash(n)], Steps(n));
    OneCarriedOut(env, |before|);
    if AllProper(dir, env, before) {
      ProperMore(dir, env, before, c);
    }
  }

  /** The flash command was carried out and the reload issued. */
  lemma Reloaded(dir: Dir, env: Env, before: seq<Command>, c: Command, n: Name, pass: bool)
    requires Ready(dir, env, n) && StepOf(c) == Flash(n) && Proper(dir, env, c) && n.suffix < 2
    requires env.exec(|before|) && pass == env.exec(|before| + 1)
    ensures Outcome(dir, env, before, before + [c] + [ReloadPt], n, pass)
  {
    StepsMore(before, c);
    StepsMore(before + [c], ReloadPt);
    assert (StepsOf(before) + [Flash(n)]) + [Reload] == StepsOf(before) + Steps(n);
    OneCarriedOut(env, |before|);
    if AllProper(dir, env, before) {
      ProperMore(dir, env, before, c);
      ProperMore(dir, env, before + [c], ReloadPt);
    }
  }

  lemma StaysInPlan(dir: Dir, env: Env, names: seq<Name>, k: nat, before: seq<Command>, log: seq<Command>, pass: bool)
    requires k < |names| && Through(dir, env, before, names[..k])
    requires Outcome(dir, env, before, log, names[k], pass)
    ensures StepsOf(log) <= Plan(names) && AllProper(dir, env, log)
  {
    PlanNext(names, k);
  }

  lemma OneFurther(dir: Dir, env: Env, names: seq<Name>, k: nat, before: seq<Command>, log: seq<Command>)
    requires k < |names| && Through(dir, env, before, names[..k])
    requires Outcome(dir, env, before, log, names[k], true)
    ensures Through(dir, env, log, names[..k + 1])
  {
    PlanNext(names, k);
    assert |log| == |before| + |Steps(names[k])|;
    assert names[..k + 1][..k] == names[..k];
  }

  lemma EndOfRun(dir: Dir, env: Env, names: seq<Name>, k: nat, before: seq<Command>, log: seq<Command>)
    requires k < |names| && Through(dir, env, before, names[..k])
    requires Outcome(dir, env, before, log, names[k], false)
    ensures !AllReady(dir, env, names) || !CarriedOut(env, 0, |Plan(names)|)
  {
    PlanNext(names, k);
    assert |before| == |Plan(names[..k])|;
    AllReadyExactly(dir, env, names);
  }

  lemma RouteNext(dir: Dir, env: Env, route: seq<Name>, i: nat, s: nat, total: nat)
    requires 1 <= i <= total && i - 1 <= |route| && route[i - 1..] == Route(dir, env, i, s, total - (i - 1))
    ensures var t := FirstReadable(dir, env, i, s);
      if t.None? then |route| == i - 1
      else i <= |route| && route[i - 1] == Name(i, t.value) && route[i..] == Route(dir, env, i + 1, t.value, total - i)
  {
    var rest := Route(dir, env, i, s, total - (i - 1));
    if rest != [] {
      assert route[i - 1] == route[i - 1..][0] && route[i..] == route[i - 1..][1..];
    }
  }

  /** The loop stands before number i: everything on its route so far is through. */
  ghost predicate OnTheWay(dir: Dir, env: Env, log: seq<Command>, route: seq<Name>, i: nat, s: nat, total: nat) {
    && 1 <= i <= total + 1 && i - 1 <= |route|
    && route[i - 1..] == Route(dir, env, i, s, total - (i - 1))
    && Through(dir, env, log, route[..i - 1])
  }

  ghost predicate RouteWent(dir: Dir, env: Env, route: seq<Name>, total: nat) {
    |route| == total && AllReady(dir, env, route) && CarriedOut(env, 0, |Plan(route)|)
  }

  /** Nothing can be found for the number: the run ends behind what is through. */
  lemma RouteStops(dir: Dir, env: Env, log: seq<Command>, route: seq<Name>, i: nat, s: nat, total: nat)
    requires OnTheWay(dir, env, log, route, i, s, total) && i <= total
    requires FirstReadable(dir, env, i, s).None?
    ensures StepsOf(log) <= Plan(route) && AllProper(dir, env, log) && !RouteWent(dir, env, route, total)
  {
    RouteNext(dir, env, route, i, s, total);
    assert route[..i - 1] == route;
  }

  /** The payload of the number was found and went through. */
  lemma RouteGoesOn(dir: Dir, env: Env, before: seq<Command>, log: seq<Command>, route: seq<Name>,
      i: nat, s: nat, t: nat, total: nat)
    requires OnTheWay(dir, env, before, route, i, s, total) && i <= total
    requires FirstReadable(dir, env, i, s) == Some(t)
    requires Outcome(dir, env, before, log, Name(i, t), true)
    ensures OnTheWay(dir, env, log, route, i + 1, t, total)
  {
    RouteNext(dir, env, route, i, s, total);
    OneFurther(dir, env, route, i - 1, before, log);
  }

  /** The payload of the number was found and failed. */
  lemma RouteEnds(dir: Dir, env: Env, before: seq<Command>, log: seq<Command>, route: seq<Name>,
      i: nat, s: nat, t: nat, total: nat)
    requires OnTheWay(dir, env, before, route, i, s, total) && i <= total
    requires FirstReadable(dir, env, i, s) == Some(t)
    requires Outcome(dir, env, before, log, Name(i, t), false)
    ensures StepsOf(log) <= Plan(route) && AllProper(dir, env, log) && !RouteWent(dir, env, route, total)
  {
    RouteNext(dir, env, route, i, s, total);
    StaysInPlan(dir, env, route, i - 1, before, log, false);
    EndOfRun(dir, env, route, i - 1, before, log);
  }

  lemma RouteStarts(dir: Dir, env: Env, route: seq<Name>, total: nat)
    requires route == Route(dir, env, 1, 0, total)
    ensures OnTheWay(dir, env, [], route, 1, 0, total)
  {
    assert route[0..] == route && route[..0] == [] && Plan([]) == [] && StepsOf([]) == [];
  }

  lemma RouteDone(dir: Dir, env: Env, log: seq<Command>, route: seq<Name>, s: nat, total: nat)
    requires OnTheWay(dir, env, log, route, total + 1, s, total)
    ensures StepsOf(log) == Plan(route) && AllProper(dir, env, log) && RouteWent(dir, env, route, total)
  {
    assert Route(dir, env, total + 1, s, 0) == [];
    assert |route| == total && route[..total] == route;
  }

  /** On a directory that does not stray, the route decides what the counted payloads decide. */
  lemma OnRoute(dir: Dir, env: Env, names: seq<Name>, route: seq<Name>)
    requires names == Counted(dir, 1, 0) && route == Route(dir, env, 1, 0, |names|)
    ensures !Strays(dir, env, names) ==> Plan(route) <= Plan(names)
    ensures !Strays(dir, env, names) ==>
      (|route| == |names| && AllWell(dir, env, route) <==> AllWell(dir, env, names))
  {
    RouteExactly(dir, env, 1, 0);
    if !Strays(dir, env, names) {
      assert route == names[..|route|];
      PlanPrefix(names, |route|);
      if AllWell(dir, env, names) {
        AllWellExactly(dir, env, names);
      }
      if |route| == |names| {
        assert route == names;
      }
    }
  }

  // ---------- the program ----------

  class DuCli {
    const env: Env
    const payloadFile: PayloadFile
    var totalNum: nat
    var doneNum: nat
    /** The commands issued to the update server. */
    var log: seq<Command>

    constructor (env: Env, payloadFile: PayloadFile)
      ensures this.env == env && this.payloadFile == payloadFile
      ensures totalNum == 0 && doneNum == 0 && log == []
    {
      this.env, this.payloadFile := env, payloadFile;
      totalNum, doneNum, log := 0, 0, [];
    }

    ghost predicate Valid()
      reads this
    {
      payloadFile.payloadBuf.Length >= SZ_4M + 3
    }

    method GetTotalPayload(dir: Dir) returns (any: bool)
      modifies `totalNum
      ensures totalNum == old(totalNum) + |Counted(dir, 1, 0)|
      ensures any <==> totalNum > 0
    {
      var suffixIndex, i := 0, 1;
      while suffixIndex < SUFFIXES
        invariant suffixIndex <= SUFFIXES && i >= 1
        invariant totalNum + |Counted(dir, i, suffixIndex)| == old(totalNum) + |Counted(dir, 1, 0)|
        decreases |Above(dir, i)|, SUFFIXES - suffixIndex
      {
        if Name(i, suffixIndex) in dir {
          AboveShrinks(dir, i, suffixIndex);
          i := i + 1;
          totalNum := totalNum + 1;
        } else {
          suffixIndex := suffixIndex + 1;
        }
      }
      return totalNum > 0;
    }

    /** A file that cannot be opened, does not fit the buffer or cannot be read through is refused. */
    method ReadFileContent(dir: Dir, n: Name) returns (ok: bool)
      requires Valid()
      modifies payloadFile`payloadFileLen, payloadFile.payloadBuf
      ensures ok <==> Readable(dir, env, n)
      ensures ok ==>
        && payloadFile.payloadFileLen == |Content(dir[n])|
        && payloadFile.payloadBuf[..payloadFile.payloadFileLen] == Content(dir[n])
    {
      if n !in dir || !env.opens(n) {
        return false;
      }
      var stSize := |dir[n]|;
      if stSize % TWO_TO_32 <= HEADER_SIZE || stSize % TWO_TO_32 > SZ_4M {
        return false;
      }
      payloadFile.payloadFileLen := stSize % TWO_TO_32;
      var content := dir[n][..payloadFile.payloadFileLen];
      var ret: nat := |content|;
      if !env.readsThrough(n) {
        ret :| ret < |content|;
      }
      forall i | 0 <= i < ret {
        payloadFile.payloadBuf[i] := content[i];
      }
      if ret != payloadFile.payloadFileLen {
        return false;
      }
      assert payloadFile.payloadBuf[..ret] == content;
      return true;
    }

    method DuscExecute(c: Command) returns (ok: bool)
      modifies `log
      ensures log == old(log) + [c] && ok == env.exec(|old(log)|)
    {
      ok := env.exec(|log|);
      log := log + [c];
    }

    /** The buffer holds the content of the named file. */
    ghost predicate Holds(dir: Dir, n: Name)
      reads this, payloadFile, payloadFile.payloadBuf
    {
      && Valid() && Readable(dir, env, n)
      && payloadFile.payloadFileLen == |Content(dir[n])|
      && payloadFile.payloadBuf[..payloadFile.payloadFileLen] == Content(dir[n])
    }

    method Parse(dir: Dir, n: Name) returns (pass: bool)
      requires Holds(dir, n)
      modifies payloadFile`partitionNameLen, payloadFile`partitionName, payloadFile`offsetLenBytes,
        payloadFile`offset, payloadFile`dataLen
      ensures Holds(dir, n) && pass == Parses(Content(dir[n]))
      ensures pass ==> payloadFile.partitionName + payloadFile.partitionNameLen <= payloadFile.payloadBuf.Length
      ensures pass ==>
        var at, len := payloadFile.partitionName, payloadFile.partitionNameLen;
        PartitionName(Content(dir[n])) == payloadFile.payloadBuf[at..at + len]
    {
      BufferParses(payloadFile.payloadBuf[..], Content(dir[n]));
      pass := payloadFile.ParsePayload();
    }

    method FlashL1pt(dir: Dir, n: Name) returns (pass: bool)
      requires Holds(dir, n) && n.suffix == 0
      modifies payloadFile, `log
      ensures Holds(dir, n)
      ensures if Ready(dir, env, n)
              then |log| == |old(log)| + 1 && log == old(log) + [log[|old(log)|]]
                && StepOf(log[|old(log)|]) == Flash(n) && Proper(dir, env, log[|old(log)|])
                && pass == env.exec(|old(log)|)
              else !pass && log == old(log)
    {
      pass := Parse(dir, n);
      if !pass {
        return false;
      }
      pass := DuscExecute(ApplyPersistent(n, ChainPersist, payloadFile.payloadBuf[..payloadFile.payloadFileLen]));
    }

    method FlashPayload(dir: Dir, n: Name) returns (pass: bool)
      requires Holds(dir, n) && n.suffix != 0
      modifies payloadFile, `log
      ensures Holds(dir, n)
      ensures if Ready(dir, env, n)
              then |log| == |old(log)| + 1 && log == old(log) + [log[|old(log)|]]
                && StepOf(log[|old(log)|]) == Flash(n) && Proper(dir, env, log[|old(log)|])
                && pass == env.exec(|old(log)|)
              else !pass && log == old(log)
    {
      pass := Parse(dir, n);
      if !pass {
        return false;
      }
      var at, buf := payloadFile.partitionName, payloadFile.payloadBuf;
      var targetBootchain;
      if payloadFile.partitionNameLen >= 2 && buf[at] == 0x43 && buf[at + 1] == 0x5F {
        targetBootchain := ChainC;
      } else {
        var activeBootchain := env.chain(n.number);
        if activeBootchain == ChainA {
          targetBootchain := ChainB;
        } else if activeBootchain == ChainB || activeBootchain == ChainC {
          targetBootchain := ChainA;
        } else {
          return false;
        }
      }
      pass := DuscExecute(Apply(n, targetBootchain, buf[..payloadFile.payloadFileLen]));
    }

    method ReloadPartitionTable() returns (pass: bool)
      modifies `log
      ensures log == old(log) + [ReloadPt] && pass == env.exec(|old(log)|)
    {
      pass := DuscExecute(ReloadPt);
    }

    /** The file of a number, tried in suffix order from the last one on. */
    method FindPayload(dir: Dir, i: nat, from: nat) returns (found: bool, suffixIndex: nat)
      requires Valid()
      modifies payloadFile`payloadFileLen, payloadFile.payloadBuf
      ensures found == FirstReadable(dir, env, i, from).Some?
      ensures found ==> suffixIndex == FirstReadable(dir, env, i, from).value && Holds(dir, Name(i, suffixIndex))
    {
      suffixIndex, found := from, false;
      while suffixIndex < SUFFIXES && !found
        invariant found ==> suffixIndex < SUFFIXES && Holds(dir, Name(i, suffixIndex))
        invariant FirstReadable(dir, env, i, from) == FirstReadable(dir, env, i, suffixIndex)
        decreases SUFFIXES - suffixIndex, !found
      {
        var ok := ReadFileContent(dir, Name(i, suffixIndex));
        if !ok {
          suffixIndex := suffixIndex + 1;
        } else {
          found := true;
        }
      }
    }

    /** One payload, and the table reload that belongs to it. */
    method FlashAndReload(dir: Dir, n: Name) returns (pass: bool)
      requires Holds(dir, n) && n.suffix < SUFFIXES
      modifies payloadFile, `log, `doneNum
      ensures Outcome(dir, env, old(log), log, n, pass)
    {
      ghost var before := log;
      if n.suffix == 0 {
        pass := FlashL1pt(dir, n);
      } else {
        pass := FlashPayload(dir, n);
      }
      if !Ready(dir, env, n) {
        NotReady(dir, env, before, n);
      } else if !(pass && n.suffix < 2) {
        Flashed(dir, env, before, log[|before|], n, pass);
      }
      if !pass {
        return false;
      }
      ghost var c := log[|before|];
      doneNum := doneNum + 1;
      if n.suffix == 0 || n.suffix == 1 {
        pass := ReloadPartitionTable();
        Reloaded(dir, env, before, c, n, pass);
      }
    }

    /** The payload of one number: found, flashed, and its table reloaded. */
    method NextPayload(dir: Dir, i: nat, from: nat) returns (pass: bool, suffixIndex: nat)
      requires Valid()
      modifies payloadFile, payloadFile.payloadBuf, `log, `doneNum
      ensures FirstReadable(dir, env, i, from).None? ==> !pass && log == old(log)
      ensures FirstReadable(dir, env, i, from).Some? ==>
        var t := FirstReadable(dir, env, i, from).value;
        Outcome(dir, env, old(log), log, Name(i, t), pass) && suffixIndex == t
    {
      var found;
      found, suffixIndex := FindPayload(dir, i, from);
      if !found {
        return false, suffixIndex;
      }
      pass := FlashAndReload(dir, Name(i, suffixIndex));
    }

    /** Number i: the loop goes on, or has ended. */
    method NumberOnRoute(dir: Dir, i: nat, from: nat, ghost route: seq<Name>) returns (pass: bool, suffixIndex: nat)
      requires Valid() && OnTheWay(dir, env, log, route, i, from, totalNum) && i <= totalNum
      modifies payloadFile, payloadFile.payloadBuf, `log, `doneNum
      ensures pass ==> OnTheWay(dir, env, log, route, i + 1, suffixIndex, totalNum)
      ensures !pass ==> StepsOf(log) <= Plan(route) && AllProper(dir, env, log) && !RouteWent(dir, env, route, totalNum)
    {
      ghost var before := log;
      pass, suffixIndex := NextPayload(dir, i, from);
      if FirstReadable(dir, env, i, from).None? {
        RouteStops(dir, env, log, route, i, from, totalNum);
      } else if pass {
        RouteGoesOn(dir, env, before, log, route, i, from, suffixIndex, totalNum);
      } else {
        RouteEnds(dir, env, before, log, route, i, from, suffixIndex, totalNum);
      }
    }

    /** The loop over the numbers. */
    method FlashNumbers(dir: Dir, ghost route: seq<Name>) returns (pass: bool, suffixIndex: nat)
      requires Valid() && OnTheWay(dir, env, log, route, 1, 0, totalNum)
      modifies payloadFile, payloadFile.payloadBuf, `log, `doneNum
      ensures pass ==> OnTheWay(dir, env, log, route, totalNum + 1, suffixIndex, totalNum)
      ensures !pass ==> StepsOf(log) <= Plan(route) && AllProper(dir, env, log) && !RouteWent(dir, env, route, totalNum)
    {
      var i: nat := 1;
      pass, suffixIndex := true, 0;
      while i <= totalNum
        invariant Valid() && pass && i <= totalNum + 1
        invariant OnTheWay(dir, env, log, route, i, suffixIndex, totalNum)
      {
        pass, suffixIndex := NumberOnRoute(dir, i, suffixIndex, route);
        if !pass {
          return;
        }
        i := i + 1;
      }
    }

    /** The payloads the loop comes to, in number order, until one cannot be found or fails. */
    method FlashAll(dir: Dir) returns (pass: bool)
      requires Valid() && log == []
      modifies payloadFile, payloadFile.payloadBuf, `log, `doneNum
      ensures var route := Route(dir, env, 1, 0, totalNum);
        && StepsOf(log) <= Plan(route) && AllProper(dir, env, log)
        && (pass <==> RouteWent(dir, env, route, totalNum))
        && (pass ==> StepsOf(log) == Plan(route))
    {
      ghost var route := Route(dir, env, 1, 0, totalNum);
      RouteStarts(dir, env, route, totalNum);
      var suffixIndex;
      pass, suffixIndex := FlashNumbers(dir, route);
      if pass {
        RouteDone(dir, env, log, route, suffixIndex, totalNum);
      }
    }

    /** The commands issued are always a beginning of the plan of the payloads the loop comes to, each of
        them proper. These are the counted payloads exactly when the directory does not stray, and then
        the run passes exactly when there is nothing to do or nothing goes wrong: every payload is found, can
        be read, parses and has a chain to go to, and the server carries out every command. */
    method Deploy(dupkgDir: Option<Dir>) returns (pass: bool)
      requires Valid() && log == [] && totalNum == 0
      modifies this, payloadFile, payloadFile.payloadBuf
      ensures dupkgDir.None? ==> pass && log == []
      ensures dupkgDir.Some? ==>
        var dir := dupkgDir.value;
        var names := Counted(dir, 1, 0);
        var route := Route(dir, env, 1, 0, |names|);
        && StepsOf(log) <= Plan(route) && AllProper(dir, env, log)
        && (pass ==> StepsOf(log) == Plan(route))
        && (pass <==> names == [] || (|route| == |names| && AllWell(dir, env, route)))
        && (!Strays(dir, env, names) ==>
              StepsOf(log) <= Plan(names) && (pass <==> names == [] || AllWell(dir, env, names)))
    {
      if dupkgDir.None? {
        return true;
      }
      var dir := dupkgDir.value;
      ghost var names := Counted(dir, 1, 0);
      ghost var route := Route(dir, env, 1, 0, |names|);
      OnRoute(dir, env, names, route);
      var any := GetTotalPayload(dir);
      if !any {
        return true;
      }
      if !env.clock {
        return false;
      }
      pass := FlashAll(dir);
    }
  }
}
