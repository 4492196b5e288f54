/** The settings migration to per-task AI providers (alembic/versions/0048_task_providers.py), on
    the stored settings: one blob per category, values copied and never read. */
module TaskProviders {
  import opened Sequences
  import opened Json

  type Blob = map<string, Json>
  type Stored = map<string, Blob>

  const TASKS: seq<string> := ["decide", "write"]
  const PROVIDER_KEYS: seq<string> := ["provider", "base_url"]
  const OLD_ORDERS_KEYS: seq<string> := ["model", "reasoning_effort", "max_tokens"]
  const AI_KEYS_COPIED_TO_ASSISTANT: seq<string> := ["provider", "base_url", "model", "reasoning_effort"]

  /** What an old shared key reads as when nothing is stored for it. */
  function OldDefault(key: string): Json {
    if key == "model" then JString("")
    else if key == "reasoning_effort" then JString("none")
    else JInt(4000)
  }

  // ---------- Task keys ----------

  function TaskKey(task: string, key: string): string {
    task + "_" + key
  }

  /** Which of the two tasks a key belongs to, by its prefix. */
  function TaskOf(x: string): Option<string> {
    if "decide_" <= x then Some("decide") else if "write_" <= x then Some("write") else None
  }

  function Bare(x: string): string
    requires TaskOf(x).Some?
  {
    if "decide_" <= x then x[7..] else x[6..]
  }

  lemma TaskKeyParses(task: string, key: string)
    requires task in TASKS
    ensures TaskOf(TaskKey(task, key)) == Some(task) && Bare(TaskKey(task, key)) == key
  {
    var x := TaskKey(task, key);
    if task == "decide" {
      assert x[..7] == "decide_" && x[7..] == key;
    } else {
      assert task == "write";
      assert x[0] == 'w' && x[..6] == "write_" && x[6..] == key;
    }
  }

  lemma ParsedIsTaskKey(x: string)
    requires TaskOf(x).Some?
    ensures TaskOf(x).value in TASKS && x == TaskKey(TaskOf(x).value, Bare(x))
  {
    if "decide_" <= x {
      assert TASKS[0] == "decide" && x == "decide_" + x[7..] && "decide_" == "decide" + "_";
    } else {
      assert TASKS[1] == "write" && x == "write_" + x[6..] && "write_" == "write" + "_";
    }
  }

  function KeysFor(tasks: seq<string>, keys: seq<string>): set<string> {
    set t, k | t in tasks && k in keys :: TaskKey(t, k)
  }

  // ---------- What the upgrade should do ----------

  /** Some shared key is stored. */
  predicate SharedStored(orders: Blob) {
    exists k :: k in OLD_ORDERS_KEYS && k in orders
  }

  /** What the shared setting effectively was. */
  function Effective(orders: Blob, key: string): Json {
    if key in orders then orders[key] else OldDefault(key)
  }

  function Kept(orders: Blob): Blob {
    map k | k in orders && k !in OLD_ORDERS_KEYS :: orders[k]
  }

  /** Whether a task key has a value to start on: the ai category's provider settings where stored,
      the shared orders settings where any of those is. */
  predicate HasSeed(orders: Blob, ai: Blob, x: string) {
    && TaskOf(x).Some?
    && ((Bare(x) in PROVIDER_KEYS && Bare(x) in ai) || (Bare(x) in OLD_ORDERS_KEYS && SharedStored(orders)))
  }

  function Seed(orders: Blob, ai: Blob, x: string): Json
    requires HasSeed(orders, ai, x)
  {
    if Bare(x) in OLD_ORDERS_KEYS then Effective(orders, Bare(x)) else ai[Bare(x)]
  }

  /** A blob with the keys `done` given the values there are for them, where it had none. */
  function Seeded(blob: Blob, seed: string -> Option<Json>, done: set<string>): Blob {
    (map x | x in done && seed(x).Some? :: seed(x).value) + blob
  }

  function SeedFor(orders: Blob, ai: Blob): string -> Option<Json> {
    (x: string) => if HasSeed(orders, ai, x) then Some(Seed(orders, ai, x)) else None
  }

  function UpgradedOrders(orders: Blob, ai: Blob): Blob {
    Seeded(Kept(orders), SeedFor(orders, ai), KeysFor(TASKS, PROVIDER_KEYS + OLD_ORDERS_KEYS))
  }

  function Only(blob: Blob, keys: seq<string>): Blob {
    map k | k in blob && k in keys :: blob[k]
  }

  function BlobOf(stored: Stored, category: string): Blob {
    if category in stored then stored[category] else map[]
  }

  function WithOrders(stored: Stored): Stored {
    var ai := BlobOf(stored, "ai");
    if "orders" in stored || Only(ai, PROVIDER_KEYS) != map[]
    then stored["orders" := UpgradedOrders(BlobOf(stored, "orders"), ai)] else stored
  }

  function WithAssistant(stored: Stored): Stored {
    var seed := Only(BlobOf(stored, "ai"), AI_KEYS_COPIED_TO_ASSISTANT);
    if "assistant" !in stored && seed != map[] then stored["assistant" := seed] else stored
  }

  function Upgraded(stored: Stored): Stored {
    WithAssistant(WithOrders(stored))
  }

  // ---------- What the downgrade should do ----------

  /** The decide task's values under the old names. */
  function Folding(orders: Blob, keys: seq<string>): Blob {
    map k | k in keys && TaskKey("decide", k) in orders :: orders[TaskKey("decide", k)]
  }

  function Untasked(orders: Blob): Blob {
    map k | k in orders && TaskOf(k).None? :: orders[k]
  }

  function FoldedOrders(orders: Blob): Blob {
    Untasked(orders) + Folding(orders, OLD_ORDERS_KEYS)
  }

  function Downgraded(stored: Stored): Stored {
    (if "orders" in stored then stored["orders" := FoldedOrders(stored["orders"])] else stored) - {"assistant"}
  }

  // ---------- The migration as it runs ----------

  lemma OneMoreSeed(blob: Blob, seed: string -> Option<Json>, done: set<string>, x: string)
    ensures Seeded(blob, seed, done + {x}) ==
            if seed(x).Some? && x !in Seeded(blob, seed, done)
            then Seeded(blob, seed, done)[x := seed(x).value] else Seeded(blob, seed, done)
  {
  }

  lemma OneMoreKey(task: string, keys: seq<string>, j: nat)
    requires j < |keys|
    ensures KeysFor([task], keys[..j + 1]) == KeysFor([task], keys[..j]) + {TaskKey(task, keys[j])}
  {
    assert keys[..j + 1] == keys[..j] + [keys[j]];
  }

  lemma KeysAreApart(key: string)
    ensures !(key in PROVIDER_KEYS && key in OLD_ORDERS_KEYS)
  {
    assert |"provider"| == 8 && |"base_url"| == 8;
    assert |"model"| == 5 && |"reasoning_effort"| == 16 && |"max_tokens"| == 10;
  }

  lemma NothingToSeed(blob: Blob, seed: string -> Option<Json>, done: set<string>, more: set<string>)
    requires forall x :: x in more ==> seed(x).None?
    ensures Seeded(blob, seed, done + more) == Seeded(blob, seed, done)
  {
  }

  lemma NoSharedSeeds(orders: Blob, ai: Blob, task: string)
    requires task in TASKS && !SharedStored(orders)
    ensures forall x :: x in KeysFor([task], OLD_ORDERS_KEYS) ==> SeedFor(orders, ai)(x).None?
  {
    forall x | x in KeysFor([task], OLD_ORDERS_KEYS) ensures SeedFor(orders, ai)(x).None? {
      var k :| k in OLD_ORDERS_KEYS && x == TaskKey(task, k);
      TaskKeyParses(task, k);
      KeysAreApart(k);
    }
  }

  function StoredIn(blob: Blob): string -> Option<Json> {
    (key: string) => if key in blob then Some(blob[key]) else None
  }

  function EffectiveIn(blob: Blob): string -> Option<Json> {
    (key: string) => Some(Effective(blob, key))
  }

  class Settings {
    var stored: Stored

    constructor (stored: Stored)
      ensures this.stored == stored
    {
      this.stored := stored;
    }

    /** migrated.setdefault(f"{task}_{key}", value) for each key that has one. */
    method SetDefaults(
      migrated: Blob, task: string, keys: seq<string>, values: string -> Option<Json>,
      ghost blob: Blob, ghost seed: string -> Option<Json>, ghost done: set<string>)
      returns (r: Blob)
      requires migrated == Seeded(blob, seed, done)
      requires forall k :: k in keys ==> seed(TaskKey(task, k)) == values(k)
      ensures r == Seeded(blob, seed, done + KeysFor([task], keys))
    {
      r := migrated;
      ghost var now := done;
      for j := 0 to |keys|
        invariant now == done + KeysFor([task], keys[..j])
        invariant r == Seeded(blob, seed, now)
      {
        var key := keys[j];
        var x := TaskKey(task, key);
        OneMoreSeed(blob, seed, now, x);
        OneMoreKey(task, keys, j);
        if values(key).Some? && x !in r {
          r := r[x := values(key).value];
        }
        now := now + {x};
      }
      assert keys[..|keys|] == keys;
    }

    method MigrateOrders(orders: Blob, ai: Blob) returns (migrated: Blob)
      ensures migrated == UpgradedOrders(orders, ai)
    {
      migrated := Kept(orders);
      ghost var seed := SeedFor(orders, ai);
      ghost var done: set<string> := {};
      assert migrated == Seeded(Kept(orders), seed, done);
      var sharedStored := SharedStored(orders);
      for i := 0 to |TASKS|
        invariant done == KeysFor(TASKS[..i], PROVIDER_KEYS + OLD_ORDERS_KEYS)
        invariant migrated == Seeded(Kept(orders), seed, done)
      {
        var task := TASKS[i];
        SeedsOfTask(orders, ai, task);
        migrated := SetDefaults(migrated, task, PROVIDER_KEYS, StoredIn(ai), Kept(orders), seed, done);
        done := done + KeysFor([task], PROVIDER_KEYS);
        if sharedStored {
          migrated := SetDefaults(migrated, task, OLD_ORDERS_KEYS, EffectiveIn(orders), Kept(orders), seed, done);
        } else {
          NoSharedSeeds(orders, ai, task);
          NothingToSeed(Kept(orders), seed, done, KeysFor([task], OLD_ORDERS_KEYS));
        }
        done := done + KeysFor([task], OLD_ORDERS_KEYS);
        OneMoreTask(i);
      }
      assert TASKS[..|TASKS|] == TASKS;
    }

    method Upgrade()
      modifies this
      ensures stored == Upgraded(old(stored))
    {
      var ai := BlobOf(stored, "ai");
      var provider := Only(ai, PROVIDER_KEYS);
      if "orders" in stored || provider != map[] {
        var migrated := MigrateOrders(BlobOf(stored, "orders"), ai);
        stored := stored["orders" := migrated];
      }
      if "assistant" !in stored {
        var seed := Only(ai, AI_KEYS_COPIED_TO_ASSISTANT);
        if seed != map[] {
          stored := stored["assistant" := seed];
        }
      }
    }

    method FoldKeys(untasked: Blob, orders: Blob, keys: seq<string>) returns (folded: Blob)
      ensures folded == untasked + Folding(orders, keys)
    {
      folded := untasked;
      for j := 0 to |keys|
        invariant folded == untasked + Folding(orders, keys[..j])
      {
        var key := keys[j];
        OneMoreFolded(orders, keys, j);
        if TaskKey("decide", key) in orders {
          folded := folded[key := orders[TaskKey("decide", key)]];
        }
      }
      assert keys[..|keys|] == keys;
    }

    method Downgrade()
      modifies this
      ensures stored == Downgraded(old(stored))
    {
      if "orders" in stored {
        var orders := stored["orders"];
        var folded := FoldKeys(Untasked(orders), orders, OLD_ORDERS_KEYS);
        stored := stored["orders" := folded];
      }
      stored := stored - {"assistant"};
    }
  }

  lemma SeedsOfTask(orders: Blob, ai: Blob, task: string)
    requires task in TASKS
    ensures forall k :: k in PROVIDER_KEYS ==> SeedFor(orders, ai)(TaskKey(task, k)) == StoredIn(ai)(k)
    ensures SharedStored(orders) ==>
              forall k :: k in OLD_ORDERS_KEYS ==> SeedFor(orders, ai)(TaskKey(task, k)) == EffectiveIn(orders)(k)
  {
    forall k | k in PROVIDER_KEYS ensures SeedFor(orders, ai)(TaskKey(task, k)) == StoredIn(ai)(k) {
      SeedOfTaskKey(orders, ai, task, k);
      KeysAreApart(k);
    }
    forall k | k in OLD_ORDERS_KEYS && SharedStored(orders)
      ensures SeedFor(orders, ai)(TaskKey(task, k)) == EffectiveIn(orders)(k)
    {
      SeedOfTaskKey(orders, ai, task, k);
    }
  }

  lemma OneMoreFolded(orders: Blob, keys: seq<string>, j: nat)
    requires j < |keys|
    ensures var x := TaskKey("decide", keys[j]);
            Folding(orders, keys[..j + 1]) ==
            if x in orders then Folding(orders, keys[..j])[keys[j] := orders[x]] else Folding(orders, keys[..j])
  {
    assert keys[..j + 1] == keys[..j] + [keys[j]];
  }

  lemma OneMoreTask(i: nat)
    requires i < |TASKS|
    ensures KeysFor(TASKS[..i], PROVIDER_KEYS + OLD_ORDERS_KEYS)
            + KeysFor([TASKS[i]], PROVIDER_KEYS) + KeysFor([TASKS[i]], OLD_ORDERS_KEYS)
            == KeysFor(TASKS[..i + 1], PROVIDER_KEYS + OLD_ORDERS_KEYS)
  {
    assert TASKS[..i + 1] == TASKS[..i] + [TASKS[i]];
  }

  // ---------- What the migration keeps ----------

  lemma SeedOfTaskKey(orders: Blob, ai: Blob, task: string, key: string)
    requires task in TASKS
    ensures HasSeed(orders, ai, TaskKey(task, key)) <==>
            (key in PROVIDER_KEYS && key in ai) || (key in OLD_ORDERS_KEYS && SharedStored(orders))
    ensures key in PROVIDER_KEYS && key in ai ==> Seed(orders, ai, TaskKey(task, key)) == ai[key]
    ensures key in OLD_ORDERS_KEYS && SharedStored(orders) ==>
              Seed(orders, ai, TaskKey(task, key)) == Effective(orders, key)
  {
    TaskKeyParses(task, key);
    KeysAreApart(key);
  }

  lemma TaskKeyIsKept(orders: Blob, task: string, key: string)
    requires task in TASKS
    ensures TaskKey(task, key) !in OLD_ORDERS_KEYS
    ensures TaskKey(task, key) in Kept(orders) <==> TaskKey(task, key) in orders
  {
    TaskKeyParses(task, key);
    forall k | k in OLD_ORDERS_KEYS ensures TaskOf(k).None? {
      OldKeysAreUntasked(k);
    }
  }

  lemma OldKeysAreUntasked(key: string)
    requires key in OLD_ORDERS_KEYS
    ensures TaskOf(key).None?
  {
    assert "model"[0] == 'm' && "reasoning_effort"[0] == 'r' && "max_tokens"[0] == 'm';
    assert "decide_"[0] == 'd' && "write_"[0] == 'w';
  }

  lemma KeyOfTask(task: string, key: string)
    requires task in TASKS
    ensures TaskKey(task, key) in KeysFor(TASKS, PROVIDER_KEYS + OLD_ORDERS_KEYS) <==>
            key in PROVIDER_KEYS || key in OLD_ORDERS_KEYS
  {
    if TaskKey(task, key) in KeysFor(TASKS, PROVIDER_KEYS + OLD_ORDERS_KEYS) {
      var t, k :| t in TASKS && k in PROVIDER_KEYS + OLD_ORDERS_KEYS && TaskKey(task, key) == TaskKey(t, k);
      TaskKeyParses(t, k);
      TaskKeyParses(task, key);
    }
  }

  /** Each task starts on its own value if it has one, on the ai category's provider settings, and
      on what the shared orders settings effectively were where any of those was stored. */
  lemma TasksStartOnTheSharedValues(orders: Blob, ai: Blob, task: string, key: string)
    requires task in TASKS
    ensures var after, x := UpgradedOrders(orders, ai), TaskKey(task, key);
            && (x in orders ==> x in after && after[x] == orders[x])
            && (x !in orders && key in PROVIDER_KEYS && key in ai ==> x in after && after[x] == ai[key])
            && (x !in orders && key in OLD_ORDERS_KEYS && SharedStored(orders) ==>
                  x in after && after[x] == Effective(orders, key))
            && (x in after ==>
                  || x in orders
                  || (key in PROVIDER_KEYS && key in ai)
                  || (key in OLD_ORDERS_KEYS && SharedStored(orders)))
  {
    SeedOfTaskKey(orders, ai, task, key);
    TaskKeyIsKept(orders, task, key);
    KeyOfTask(task, key);
  }

  /** Nothing else changes, but that the shared keys are gone. */
  lemma OtherKeysStay(orders: Blob, ai: Blob, key: string)
    requires TaskOf(key).None?
    ensures var after := UpgradedOrders(orders, ai);
            && (key in after <==> key in orders && key !in OLD_ORDERS_KEYS)
            && (key in after ==> after[key] == orders[key])
  {
  }

  lemma KeptTwice(orders: Blob, ai: Blob)
    ensures Kept(UpgradedOrders(orders, ai)) == UpgradedOrders(orders, ai)
    ensures !SharedStored(UpgradedOrders(orders, ai))
  {
    var after := UpgradedOrders(orders, ai);
    forall k | k in OLD_ORDERS_KEYS ensures k !in after {
      OldKeysAreUntasked(k);
      OtherKeysStay(orders, ai, k);
    }
  }

  lemma OrdersUpgradeIsIdempotent(orders: Blob, ai: Blob)
    ensures UpgradedOrders(UpgradedOrders(orders, ai), ai) == UpgradedOrders(orders, ai)
  {
    var after := UpgradedOrders(orders, ai);
    KeptTwice(orders, ai);
    forall x | x in KeysFor(TASKS, PROVIDER_KEYS + OLD_ORDERS_KEYS) && HasSeed(after, ai, x) ensures x in after {
      ParsedIsTaskKey(x);
      TasksStartOnTheSharedValues(orders, ai, TaskOf(x).value, Bare(x));
    }
  }

  lemma OrdersPartIsIdempotent(stored: Stored, later: Stored)
    requires BlobOf(later, "ai") == BlobOf(stored, "ai")
    requires "orders" in later <==> "orders" in WithOrders(stored)
    requires "orders" in later ==> later["orders"] == WithOrders(stored)["orders"]
    ensures WithOrders(later) == later
  {
    OrdersUpgradeIsIdempotent(BlobOf(stored, "orders"), BlobOf(stored, "ai"));
  }

  lemma OtherPartsStay(stored: Stored)
    ensures BlobOf(WithOrders(stored), "ai") == BlobOf(stored, "ai")
    ensures BlobOf(WithAssistant(stored), "ai") == BlobOf(stored, "ai")
    ensures "orders" in WithAssistant(stored) <==> "orders" in stored
    ensures "orders" in stored ==> WithAssistant(stored)["orders"] == stored["orders"]
  {
    CategoriesDiffer();
  }

  lemma AssistantPartIsIdempotent(stored: Stored)
    ensures WithAssistant(WithAssistant(stored)) == WithAssistant(stored)
  {
    OtherPartsStay(stored);
  }

  /** The blob that is stored: orders is there after the upgrade where it was before, or where the ai
      category stores a provider setting; its keys of neither task are as they were stored, the shared
      ones gone; and other categories are as they were. */
  lemma UpgradeStores(stored: Stored, key: string, category: string)
    requires TaskOf(key).None? && category != "orders" && category != "assistant"
    ensures var orders, ai, after := BlobOf(stored, "orders"), BlobOf(stored, "ai"), Upgraded(stored);
            && ("orders" in after <==> "orders" in stored || exists k :: k in PROVIDER_KEYS && k in ai)
            && (category in after <==> category in stored)
            && (category in stored ==> after[category] == stored[category])
            && ("orders" in after ==>
                  && (key in after["orders"] <==> key in orders && key !in OLD_ORDERS_KEYS)
                  && (key in after["orders"] ==> after["orders"][key] == orders[key]))
  {
    CategoriesDiffer();
    OtherKeysStay(BlobOf(stored, "orders"), BlobOf(stored, "ai"), key);
    var ai := BlobOf(stored, "ai");
    if Only(ai, PROVIDER_KEYS) != map[] {
      var k :| k in Only(ai, PROVIDER_KEYS);
    }
    if k :| k in PROVIDER_KEYS && k in ai {
      assert k in Only(ai, PROVIDER_KEYS);
    }
  }

  /** And each task key in it is what was stored under its own name, or else the stored ai setting, or
      what the stored shared setting effectively was. */
  lemma UpgradeStartsTasks(stored: Stored, task: string, key: string)
    requires task in TASKS && "orders" in Upgraded(stored)
    ensures var orders, ai := BlobOf(stored, "orders"), BlobOf(stored, "ai");
            var after, x := Upgraded(stored)["orders"], TaskKey(task, key);
            && (x in after <==>
                  || x in orders
                  || (key in PROVIDER_KEYS && key in ai)
                  || (key in OLD_ORDERS_KEYS && SharedStored(orders)))
            && (x in after ==> after[x] == if x in orders then orders[x]
                                           else if key in PROVIDER_KEYS then ai[key] else Effective(orders, key))
  {
    CategoriesDiffer();
    KeysAreApart(key);
    TasksStartOnTheSharedValues(BlobOf(stored, "orders"), BlobOf(stored, "ai"), task, key);
  }

  /** Where only some shared setting was stored, the others start on the old defaults. */
  lemma UnstoredSettingsStartOnTheDefaults(stored: Stored, task: string, key: string)
    requires task in TASKS && "orders" in stored && SharedStored(stored["orders"])
    requires key in OLD_ORDERS_KEYS && key !in stored["orders"] && TaskKey(task, key) !in stored["orders"]
    ensures "orders" in Upgraded(stored) && TaskKey(task, key) in Upgraded(stored)["orders"]
    ensures var start := Upgraded(stored)["orders"][TaskKey(task, key)];
            && (key == "model" ==> start == JString(""))
            && (key == "reasoning_effort" ==> start == JString("none"))
            && (key == "max_tokens" ==> start == JInt(4000))
  {
    CategoriesDiffer();
    KeysAreApart(key);
    UpgradeStartsTasks(stored, task, key);
    assert |"model"| == 5 && |"reasoning_effort"| == 16 && |"max_tokens"| == 10;
  }

  /** The downgrade gives each shared key the decide task's value, where it stores one, and keeps the
      keys of neither task; a shared key that is itself stored stays where decide stores none. */
  lemma DowngradeFoldsTheDecideTask(stored: Stored, key: string)
    requires "orders" in stored
    ensures var orders, after := stored["orders"], Downgraded(stored);
            && after.Keys == stored.Keys - {"assistant"} && "orders" in after
            && (TaskOf(key).Some? ==> key !in after["orders"])
            && (TaskOf(key).None? ==>
                  var folded := key in OLD_ORDERS_KEYS && ("decide_" + key) in orders;
                  && (key in after["orders"] <==> folded || key in orders)
                  && (key in after["orders"] ==>
                        after["orders"][key] == if folded then orders["decide_" + key] else orders[key]))
  {
    CategoriesDiffer();
    assert TaskKey("decide", key) == "decide_" + key by {
      assert "decide" + "_" == "decide_";
    }
    if key in OLD_ORDERS_KEYS {
      OldKeysAreUntasked(key);
    }
  }

  /** Upgrading again changes nothing. */
  lemma UpgradeIsIdempotent(stored: Stored)
    ensures Upgraded(Upgraded(stored)) == Upgraded(stored)
  {
    OtherPartsStay(stored);
    OtherPartsStay(WithOrders(stored));
    OrdersPartIsIdempotent(stored, Upgraded(stored));
    AssistantPartIsIdempotent(WithOrders(stored));
  }

  lemma CategoriesDiffer()
    ensures "ai" != "orders" && "ai" != "assistant" && "orders" != "assistant"
  {
    assert |"ai"| == 2 && |"orders"| == 6 && |"assistant"| == 9;
  }

  /** An assistant category that is there stays as it is; one that is not is made of whichever of
      the four settings the ai category stores, if it stores any. */
  lemma AssistantStartsOnTheAiSettings(stored: Stored, key: string)
    ensures "assistant" in stored ==> BlobOf(Upgraded(stored), "assistant") == stored["assistant"]
    ensures "assistant" !in stored ==>
              var seeded := BlobOf(Upgraded(stored), "assistant");
              var ai := BlobOf(stored, "ai");
              && (key in seeded <==> key in ai && key in AI_KEYS_COPIED_TO_ASSISTANT)
              && (key in seeded ==> seeded[key] == ai[key])
              && ("assistant" in Upgraded(stored) <==> seeded != map[])
  {
    CategoriesDiffer();
    OtherPartsStay(stored);
  }

  // ---------- Downgrade after upgrade ----------

  ghost predicate Untouched(orders: Blob) {
    forall k :: k in orders ==> TaskOf(k).None?
  }

  /** Where orders has no task key, upgrading and downgrading gives every shared key the value it
      effectively had, if any was stored, and keeps every other key. */
  lemma OrdersRoundTrip(orders: Blob, ai: Blob, key: string)
    requires Untouched(orders)
    ensures var back := FoldedOrders(UpgradedOrders(orders, ai));
            if key in OLD_ORDERS_KEYS then
              (key in back <==> SharedStored(orders)) && Effective(back, key) == Effective(orders, key)
            else (key in back <==> key in orders) && (key in back ==> back[key] == orders[key])
  {
    var after := UpgradedOrders(orders, ai);
    TaskKeyParses("decide", key);
    assert TASKS[0] == "decide";
    if key in OLD_ORDERS_KEYS {
      OldKeysAreUntasked(key);
      OtherKeysStay(orders, ai, key);
      KeysAreApart(key);
      TasksStartOnTheSharedValues(orders, ai, "decide", key);
    } else if TaskOf(key).None? {
      OtherKeysStay(orders, ai, key);
    }
  }

  predicate StoresNoneOrAll(orders: Blob) {
    SharedStored(orders) ==> forall k :: k in OLD_ORDERS_KEYS ==> k in orders
  }

  /** When the way there and back is the identity: orders stores none or all of the shared keys and
      no task key, there is no assistant category, and no provider setting where orders is absent. */
  predicate RoundTrips(stored: Stored) {
    && "assistant" !in stored
    && ("orders" in stored ==>
          && (forall k :: k in stored["orders"] ==> TaskOf(k).None?)
          && StoresNoneOrAll(stored["orders"]))
    && ("orders" !in stored ==> Only(BlobOf(stored, "ai"), PROVIDER_KEYS) == map[])
  }

  lemma OrdersComeBack(orders: Blob, ai: Blob)
    requires Untouched(orders) && StoresNoneOrAll(orders)
    ensures FoldedOrders(UpgradedOrders(orders, ai)) == orders
  {
    var back := FoldedOrders(UpgradedOrders(orders, ai));
    forall key ensures key in back <==> key in orders
      ensures key in back ==> back[key] == orders[key]
    {
      OrdersRoundTrip(orders, ai, key);
    }
  }

  lemma OrdersRoundTripIff(orders: Blob, ai: Blob)
    ensures FoldedOrders(UpgradedOrders(orders, ai)) == orders <==> Untouched(orders) && StoresNoneOrAll(orders)
  {
    var back := FoldedOrders(UpgradedOrders(orders, ai));
    forall k | k in back ensures TaskOf(k).None? {
      if k in OLD_ORDERS_KEYS {
        OldKeysAreUntasked(k);
      }
    }
    if Untouched(orders) {
      if StoresNoneOrAll(orders) {
        OrdersComeBack(orders, ai);
      } else {
        forall key | key in OLD_ORDERS_KEYS ensures key in back {
          OrdersRoundTrip(orders, ai, key);
        }
      }
    }
  }

  lemma ThereAndBack(stored: Stored)
    ensures var orders, ai := BlobOf(stored, "orders"), BlobOf(stored, "ai");
            Downgraded(Upgraded(stored)) ==
            (if "orders" in stored || Only(ai, PROVIDER_KEYS) != map[]
             then stored["orders" := FoldedOrders(UpgradedOrders(orders, ai))] else stored) - {"assistant"}
  {
    CategoriesDiffer();
  }

  lemma UnchangedIff(stored: Stored, orders: Blob)
    ensures stored - {"assistant"} == stored <==> "assistant" !in stored
    ensures stored["orders" := orders] - {"assistant"} == stored <==>
            "assistant" !in stored && "orders" in stored && stored["orders"] == orders
  {
    CategoriesDiffer();
    assert "orders" in stored["orders" := orders] - {"assistant"};
    assert (stored["orders" := orders] - {"assistant"})["orders"] == orders;
    assert "assistant" !in stored["orders" := orders] - {"assistant"} && "assistant" !in stored - {"assistant"};
  }

  /** Upgrading and downgrading restores exactly what was stored if and only if it was of that form. */
  lemma RoundTripIff(stored: Stored)
    ensures Downgraded(Upgraded(stored)) == stored <==> RoundTrips(stored)
  {
    var orders, ai := BlobOf(stored, "orders"), BlobOf(stored, "ai");
    ThereAndBack(stored);
    UnchangedIff(stored, FoldedOrders(UpgradedOrders(orders, ai)));
    OrdersRoundTripIff(orders, ai);
  }
}
