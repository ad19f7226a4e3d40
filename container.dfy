/**
 * `Container` (src/routes/container.ts): the dependency registry the routes
 * draw their repository from. Its map from keys to dependencies is a field
 * the methods reassign. The process-wide `DbContext.instance` and the
 * database file every new `TaskRepository` opens are fields the container
 * is given, since Dafny has no globals.
 */
module Containers {
  import opened Wrappers
  import opened TaskStore
  import opened DbContexts
  import TaskRepositories

  /** The one key the container registers. */
  const TASK_REPOSITORY: string := "taskRepository"

  /** A registered value: a real repository, or a stand-in a test put there. */
  datatype Dependency = Repository(repository: TaskRepositories.TaskRepository) | Mock(name: string)

  /** The `Dependencies` record `getDependencies` returns. */
  datatype Dependencies = Dependencies(taskRepository: Dependency)

  /** The error `get` throws for a key it does not hold. */
  function NotFoundMessage(key: string): string {
    "Dependency '" + key + "' not found"
  }

  /** The registry after `set(key, value)` of each entry in turn. */
  function Overridden(m: map<string, Dependency>, entries: seq<(string, Dependency)>): map<string, Dependency>
    decreases |entries|
  {
    if entries == [] then m
    else
      var last := entries[|entries| - 1];
      Overridden(m, entries[..|entries| - 1])[last.0 := last.1]
  }

  /** After the overrides, the keys are the registry's and the entries'. */
  lemma {:induction false} OverriddenKeys(m: map<string, Dependency>, entries: seq<(string, Dependency)>)
    ensures forall k :: k in Overridden(m, entries) <==> k in m || exists i | 0 <= i < |entries| :: entries[i].0 == k
    decreases |entries|
  {
    if entries != [] {
      var init := entries[..|entries| - 1];
      OverriddenKeys(m, init);
      var r := Overridden(m, entries);
      var last := entries[|entries| - 1];
      forall k ensures k in r <==> k in m || exists i | 0 <= i < |entries| :: entries[i].0 == k {
        if k in r && k != last.0 && k !in m {
          var i :| 0 <= i < |init| && init[i].0 == k;
          assert entries[i].0 == k;
        }
        if exists i | 0 <= i < |entries| :: entries[i].0 == k {
          var i :| 0 <= i < |entries| && entries[i].0 == k;
          if i < |init| {
            assert init[i].0 == k;
          }
        }
      }
    }
  }

  /** An entry not followed by another with its key decides that key's value. */
  lemma {:induction false} OverriddenLastWins(m: map<string, Dependency>, entries: seq<(string, Dependency)>)
    ensures forall i | 0 <= i < |entries| && (forall j | i < j < |entries| :: entries[j].0 != entries[i].0) ::
      entries[i].0 in Overridden(m, entries) && Overridden(m, entries)[entries[i].0] == entries[i].1
    decreases |entries|
  {
    if entries != [] {
      var init := entries[..|entries| - 1];
      OverriddenLastWins(m, init);
      forall i | 0 <= i < |entries| && (forall j | i < j < |entries| :: entries[j].0 != entries[i].0)
        ensures entries[i].0 in Overridden(m, entries) && Overridden(m, entries)[entries[i].0] == entries[i].1
      {
        if i < |init| {
          assert init[i] == entries[i];
          assert forall j | i < j < |init| :: init[j] == entries[j];
        }
      }
    }
  }

  /** A key no entry names keeps the registry's value. */
  lemma {:induction false} OverriddenUntouched(m: map<string, Dependency>, entries: seq<(string, Dependency)>)
    ensures forall k | k in m && (forall i | 0 <= i < |entries| :: entries[i].0 != k) ::
      k in Overridden(m, entries) && Overridden(m, entries)[k] == m[k]
    decreases |entries|
  {
    if entries != [] {
      var init := entries[..|entries| - 1];
      OverriddenUntouched(m, init);
      assert forall i | 0 <= i < |init| :: init[i] == entries[i];
    }
  }

  class Container {
    /** The registry. */
    var dependencies: map<string, Dependency>
    /** Where `DbContext.getInstance` keeps the shared context. */
    const contexts: DbContextStatics
    /** The database `DB_CONFIG.path` holds when a repository first opens it. */
    const file: Database

    /** The registered repository exists, shares the one context, and sees a valid table. */
    ghost predicate HoldsRepository()
      reads this, contexts
      reads if TASK_REPOSITORY in dependencies && dependencies[TASK_REPOSITORY].Repository?
        then {dependencies[TASK_REPOSITORY].repository, dependencies[TASK_REPOSITORY].repository.dbContext} else {}
    {
      && TASK_REPOSITORY in dependencies
      && dependencies[TASK_REPOSITORY].Repository?
      && dependencies[TASK_REPOSITORY].repository.dbContext == contexts.instance
      && dependencies[TASK_REPOSITORY].repository.Valid()
    }

    /** `new Container()`: registers a new `TaskRepository(DB_CONFIG.path)` under "taskRepository". */
    constructor(contexts: DbContextStatics, file: Database)
      requires WellFormed(file) && contexts.Ready()
      modifies contexts, contexts.instance
      ensures this.contexts == contexts && this.file == file
      ensures dependencies.Keys == {TASK_REPOSITORY}
      ensures HoldsRepository() && fresh(dependencies[TASK_REPOSITORY].repository)
      ensures old(contexts.instance) != null ==> contexts.instance == old(contexts.instance)
      ensures old(contexts.instance) != null ==>
        contexts.instance.current == CreateTable(old(contexts.instance.current), TaskRepositories.TASK_STATUSES)
      ensures old(contexts.instance) == null ==>
        contexts.instance != null && contexts.instance.current == CreateTable(file, TaskRepositories.TASK_STATUSES)
      ensures contexts.Ready()
    {
      this.contexts := contexts;
      this.file := file;
      dependencies := map[];
      new;
      RegisterDependencies();
    }

    /** `registerDependencies`: (re)binds "taskRepository" to a new repository on `DB_CONFIG.path`. */
    method RegisterDependencies()
      requires WellFormed(file) && contexts.Ready()
      modifies this, contexts, contexts.instance
      ensures HoldsRepository() && fresh(dependencies[TASK_REPOSITORY].repository)
      ensures dependencies == old(dependencies)[TASK_REPOSITORY := dependencies[TASK_REPOSITORY]]
      ensures old(contexts.instance) != null ==> contexts.instance == old(contexts.instance)
      ensures old(contexts.instance) != null ==>
        contexts.instance.current == CreateTable(old(contexts.instance.current), TaskRepositories.TASK_STATUSES)
      ensures old(contexts.instance) == null ==>
        contexts.instance != null && contexts.instance.current == CreateTable(file, TaskRepositories.TASK_STATUSES)
      ensures contexts.Ready()
    {
      var repository := new TaskRepositories.TaskRepository(contexts, Some(DEFAULT_PATH), file);
      dependencies := dependencies[TASK_REPOSITORY := Repository(repository)];
    }

    /** `get(key)`: the registered value, or the "not found" error. */
    function Get(key: string): (r: Result<Dependency, string>)
      reads this
      ensures r.Success? <==> key in dependencies
      ensures r.Success? ==> r.value == dependencies[key]
      ensures r.Failure? ==> r.error == NotFoundMessage(key)
    {
      if key !in dependencies then Failure(NotFoundMessage(key)) else Success(dependencies[key])
    }

    /** `set(key, value)`: binds or rebinds one key. */
    method Set(key: string, value: Dependency)
      modifies this
      ensures dependencies == old(dependencies)[key := value]
    {
      dependencies := dependencies[key := value];
    }

    /** `getDependencies()`: the record holding "taskRepository", or the error `get` throws. */
    function GetDependencies(): (r: Result<Dependencies, string>)
      reads this
      ensures r.Success? <==> TASK_REPOSITORY in dependencies
      ensures r.Success? ==> r.value.taskRepository == dependencies[TASK_REPOSITORY]
      ensures r.Failure? ==> r.error == NotFoundMessage(TASK_REPOSITORY)
    {
      var repository :- Get(TASK_REPOSITORY);
      Success(Dependencies(repository))
    }

    /**
     * `reset()`: drops every binding, mocks included, and registers a new
     * repository; it shares the context the original one used.
     */
    method Reset()
      requires WellFormed(file) && contexts.Ready()
      modifies this, contexts, contexts.instance
      ensures dependencies.Keys == {TASK_REPOSITORY}
      ensures HoldsRepository() && fresh(dependencies[TASK_REPOSITORY].repository)
      ensures old(contexts.instance) != null ==> contexts.instance == old(contexts.instance)
      ensures old(contexts.instance) != null ==>
        contexts.instance.current == CreateTable(old(contexts.instance.current), TaskRepositories.TASK_STATUSES)
      ensures old(contexts.instance) == null ==>
        contexts.instance != null && contexts.instance.current == CreateTable(file, TaskRepositories.TASK_STATUSES)
      ensures old(contexts.instance) != null && old(contexts.instance.current).tasks.Some? ==>
        contexts.instance.current == old(contexts.instance.current)
      ensures contexts.Ready()
    {
      dependencies := map[];
      RegisterDependencies();
    }
  }

  /**
   * `Container.createTestContainer(mocks)`: a new container, then `set` of
   * each entry in order; `registered` is the repository the new container
   * registered before the mocks went in.
   */
  method CreateTestContainer(contexts: DbContextStatics, file: Database, mocks: seq<(string, Dependency)>)
    returns (container: Container, ghost registered: TaskRepositories.TaskRepository)
    requires WellFormed(file) && contexts.Ready()
    modifies contexts, contexts.instance
    ensures fresh(container) && fresh(registered)
    ensures container.contexts == contexts && container.file == file
    ensures registered.dbContext == contexts.instance
    ensures container.dependencies == Overridden(map[TASK_REPOSITORY := Repository(registered)], mocks)
    ensures old(contexts.instance) != null ==> contexts.instance == old(contexts.instance)
    ensures old(contexts.instance) != null ==>
      contexts.instance.current == CreateTable(old(contexts.instance.current), TaskRepositories.TASK_STATUSES)
    ensures old(contexts.instance) == null ==> contexts.instance.current == CreateTable(file, TaskRepositories.TASK_STATUSES)
  {
    container := new Container(contexts, file);
    registered := container.dependencies[TASK_REPOSITORY].repository;
    ghost var start, shared := container.dependencies, contexts.instance.current;
    assert start == map[TASK_REPOSITORY := Repository(registered)];
    var i := 0;
    while i < |mocks|
      invariant 0 <= i <= |mocks|
      invariant container.dependencies == Overridden(start, mocks[..i])
      invariant contexts.instance == registered.dbContext && contexts.instance.current == shared
    {
      container.Set(mocks[i].0, mocks[i].1);
      assert mocks[..i + 1][..i] == mocks[..i];
      i := i + 1;
    }
    assert mocks[..|mocks|] == mocks;
  }

  /** The static `Container.instance`. */
  class ContainerStatics {
    var instance: Container?

    constructor()
      ensures instance == null
    {
      instance := null;
    }

    /** `getInstance()`: the first call builds the container; later calls return it. */
    method GetInstance(contexts: DbContextStatics, file: Database) returns (c: Container)
      requires instance == null ==> WellFormed(file) && contexts.Ready()
      modifies this, contexts, contexts.instance
      ensures old(instance) != null ==> c == old(instance) && instance == old(instance)
      ensures old(instance) == null ==> fresh(c) && instance == c && c.dependencies.Keys == {TASK_REPOSITORY}
      ensures old(instance) != null || old(contexts.instance) != null ==> contexts.instance == old(contexts.instance)
      ensures old(instance) != null && old(contexts.instance) != null ==>
        contexts.instance.current == old(contexts.instance.current)
      ensures old(instance) == null && old(contexts.instance) != null ==>
        contexts.instance.current == CreateTable(old(contexts.instance.current), TaskRepositories.TASK_STATUSES)
      ensures old(instance) == null && old(contexts.instance) == null ==>
        contexts.instance != null && contexts.instance.current == CreateTable(file, TaskRepositories.TASK_STATUSES)
    {
      if instance == null {
        instance := new Container(contexts, file);
      }
      c := instance;
    }
  }
}
