/** `ILRManager`: the static owner of the ILRuntime `AppDomain`, the open
    assembly and symbol streams, the memoised list of loaded types, and the
    factory that instantiates a type whatever ILRuntime presents it as. */
module IlrManager {
  import opened Wrappers
  import opened ClrTypes

  /** A type the domain has loaded, and the `System.Type` it reflects as. */
  datatype LoadedType = LoadedType(fullName: string, reflectionType: TypeId)

  /** An ILRuntime `AppDomain`: its `LoadedTypes`, in enumeration order. */
  class AppDomain {
    var loadedTypes: seq<LoadedType>

    /** A new domain has loaded nothing. */
    constructor()
      ensures loadedTypes == []
    {
      loadedTypes := [];
    }

    /** `LoadAssembly`: the domain now holds the assembly's types. */
    method LoadAssembly(assembly: seq<LoadedType>)
      modifies this
      ensures loadedTypes == assembly
    {
      loadedTypes := assembly;
    }
  }

  /** A read-only `FileStream`. */
  class FileStream {
    const path: string
    var open: bool

    constructor(path: string)
      ensures this.path == path && open
    {
      this.path := path;
      open := true;
    }

    /** `Close()` then `Dispose()`. */
    method Close()
      modifies this
      ensures !open
    {
      open := false;
    }
  }

  /** The `List<Type>` `GetTypes` hands out: callers share the one object. */
  class TypeList {
    var items: seq<TypeId>

    constructor()
      ensures items == []
    {
      items := [];
    }

    method Add(t: TypeId)
      modifies this
      ensures items == old(items) + [t]
    {
      items := items + [t];
    }
  }

  /** The exceptions `Initialize` and `GetTypes` let through. */
  datatype ManagerError = FileNotFound(path: string) | DomainNull

  /** The reflection types of the loaded types, in order. */
  function ReflectionTypes(loaded: seq<LoadedType>): (r: seq<TypeId>)
    ensures |r| == |loaded|
    ensures forall i | 0 <= i < |loaded| :: r[i] == loaded[i].reflectionType
  {
    if |loaded| == 0 then [] else [loaded[0].reflectionType] + ReflectionTypes(loaded[1..])
  }

  /** The assembly `Initialize` loads: the given path unless it is null or
      empty, else the bundle called `main` under the local bundle directory. */
  function AssemblyPath(path: Option<string>, bundleDir: string, bundleExtension: string): (dll: string)
    ensures path.Some? && path.value != [] ==> dll == path.value
    ensures (path.None? || path.value == []) ==> dll == bundleDir + "main" + bundleExtension
  {
    if path.Some? && |path.value| > 0 then path.value else bundleDir + "main" + bundleExtension
  }

  /** The symbol file looked for beside an assembly. */
  function SymbolPath(dll: string): string {
    dll + ".pdb"
  }

  /** How `CreateInstance` builds an object: through the interpreter, or
      through `Activator.CreateInstance` on a CLR type. */
  datatype Instance<A> =
    | Instantiated(ilType: TypeId, args: seq<A>)
    | Activated(clrType: TypeId, args: seq<A>)

  /** `CreateInstance(type, args)`: an interpreted type is instantiated by
      ILRuntime; a wrapper type is constructed as its real CLR type; any
      other type is constructed as itself. The arguments are passed on
      unchanged. */
  function CreateInstance<A>(env: TypeEnv, t: TypeId, args: seq<A>): (r: Instance<A>)
    ensures r.args == args
    ensures r.Instantiated? <==> Info(env, t).kind.Interpreted?
    ensures r.Instantiated? ==> r.ilType == t
    ensures r.Activated? && Info(env, t).kind.Wrapper? ==> r.clrType == Info(env, t).kind.realType
    ensures r.Activated? && Info(env, t).kind.Native? ==> r.clrType == t
  {
    match Info(env, t).kind
    case Interpreted => Instantiated(t, args)
    case Wrapper(realType, _, _, _) => Activated(realType, args)
    case Native => Activated(t, args)
  }

  /** The static state of `ILRManager`. */
  class Manager {
    var appDomain: AppDomain?
    var dllFs: FileStream?
    var pdbFs: FileStream?
    var types: TypeList?
    var hookRegistrations: nat   // how many times the asset hooks were subscribed

    constructor()
      ensures appDomain == null && dllFs == null && pdbFs == null && types == null && hookRegistrations == 0
    {
      appDomain := null;
      dllFs := null;
      pdbFs := null;
      types := null;
      hookRegistrations := 0;
    }

    /** `Initialize(path, afterInit)`: a fresh, empty domain is created
        first; the assembly is opened, and with it the symbols only when
        `dll + ".pdb"` exists; the domain loads the assembly; then the asset
        hooks are subscribed. `files` is what exists on disk and `assembly`
        what `LoadAssembly` finds in the file. A missing assembly throws when
        it is opened, after the empty domain was set and before anything is
        loaded. */
    method Initialize(path: Option<string>, bundleDir: string, bundleExtension: string,
                      files: set<string>, assembly: seq<LoadedType>) returns (r: Outcome<ManagerError>)
      modifies this
      ensures var dll := AssemblyPath(path, bundleDir, bundleExtension);
        && appDomain != null && fresh(appDomain)
        && (r.Pass? ==> appDomain.loadedTypes == assembly)
        && (r.Fail? ==> appDomain.loadedTypes == [])
        && types == old(types)
        && (r.Pass? <==> dll in files)
        && (r.Fail? ==> r == Fail(FileNotFound(dll)) && dllFs == old(dllFs) && pdbFs == old(pdbFs)
                        && hookRegistrations == old(hookRegistrations))
        && (r.Pass? ==> && dllFs != null && fresh(dllFs) && dllFs.path == dll && dllFs.open
                        && hookRegistrations == old(hookRegistrations) + 1)
        && (r.Pass? && SymbolPath(dll) in files ==> pdbFs != null && fresh(pdbFs) && pdbFs.path == SymbolPath(dll) && pdbFs.open)
        && (r.Pass? && SymbolPath(dll) !in files ==> pdbFs == old(pdbFs))
    {
      var dll := AssemblyPath(path, bundleDir, bundleExtension);
      var pdbPath := SymbolPath(dll);
      var domain := new AppDomain();
      appDomain := domain;
      if dll !in files {
        return Fail(FileNotFound(dll));
      }
      if pdbPath in files {
        dllFs := new FileStream(dll);
        pdbFs := new FileStream(pdbPath);
      } else {
        dllFs := new FileStream(dll);
      }
      domain.LoadAssembly(assembly);
      hookRegistrations := hookRegistrations + 1;
      return Pass;
    }

    /** `Close()`: the domain is dropped and the streams the two fields
        hold are closed; the fields themselves and the type list are kept. */
    method Close()
      modifies this, dllFs, pdbFs
      ensures appDomain == null
      ensures dllFs == old(dllFs) && pdbFs == old(pdbFs) && types == old(types)
      ensures hookRegistrations == old(hookRegistrations)
      ensures dllFs != null ==> !dllFs.open
      ensures pdbFs != null ==> !pdbFs.open
    {
      appDomain := null;
      if dllFs != null {
        dllFs.Close();
      }
      if pdbFs != null {
        pdbFs.Close();
      }
    }

    /** What `GetTypes` hands back in the current state: the memoised list,
        else the domain's types, else nothing (the call throws). */
    function Listed(): (r: Option<seq<TypeId>>)
      reads this, types, appDomain
    {
      if types != null then Some(types.items)
      else if appDomain != null then Some(ReflectionTypes(appDomain.loadedTypes))
      else None
    }

    /** `GetTypes()`: the first call builds the list from the domain's loaded
        types, in order; every later call returns that same list object. The
        list is stored before the domain is read, so a first call without a
        domain throws and leaves an empty list behind for good. */
    method GetTypes() returns (r: Result<TypeList, ManagerError>)
      modifies this
      ensures old(types) != null ==> r == Success(old(types)) && types == old(types) && unchanged(types)
      ensures old(types) == null ==> types != null && fresh(types)
      ensures old(types) == null && appDomain != null ==>
                r == Success(types) && types.items == ReflectionTypes(appDomain.loadedTypes)
      ensures old(types) == null && appDomain == null ==> r == Failure(DomainNull) && types.items == []
      ensures appDomain == old(appDomain) && dllFs == old(dllFs) && pdbFs == old(pdbFs)
      ensures hookRegistrations == old(hookRegistrations)
      ensures r.Success? <==> old(Listed()).Some?
      ensures r.Success? ==> r.value.items == old(Listed()).value
      ensures Listed() == Some(if old(Listed()).Some? then old(Listed()).value else [])
      ensures types != null
    {
      if types == null {
        var list := new TypeList();
        types := list;
        if appDomain == null {
          return Failure(DomainNull);
        }
        var values := appDomain.loadedTypes;
        var i := 0;
        while i < |values|
          invariant 0 <= i <= |values|
          invariant types == list && fresh(list)
          invariant list.items == ReflectionTypes(values[..i])
          modifies list
        {
          assert values[..i + 1] == values[..i] + [values[i]];
          ReflectionTypesAppend(values[..i], values[i]);
          list.Add(values[i].reflectionType);
          i := i + 1;
        }
        assert values[..i] == values;
      }
      return Success(types);
    }
  }

  lemma {:induction false} ReflectionTypesAppend(loaded: seq<LoadedType>, t: LoadedType)
    ensures ReflectionTypes(loaded + [t]) == ReflectionTypes(loaded) + [t.reflectionType]
  {
  }
}
