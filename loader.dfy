/** Plugin loading of alicebot/utils.py: choosing the one component class of a
    module (`load_module`), loading a module by name, from a `.py` file, or every
    module of some directories. Python's reflection (`dir`, `getattr`, `inspect`)
    is replaced by explicit attribute records, and the import machinery by an
    `Importer` function given as a parameter. */
module Loader {
  import opened Wrappers
  import opened Paths

  /** A class, identified the way `==` and `is` compare classes in Python. */
  datatype ClassRef = Abc | BaseModel | UserClass(qualname: string)

  /** What `inspect` can tell about a class. */
  datatype ClassInfo = ClassInfo(
    id: ClassRef,
    home: Option<string>,     // `inspect.getmodule(cls)`, by module name; None when unknown
    supers: set<ClassRef>,    // every class it inherits from, directly or not
    bases: seq<ClassRef>,     // `cls.__bases__`
    isAbstract: bool,         // `inspect.isabstract(cls)`
    members: set<string>)     // `dir(cls)`

  /** The value a module attribute is bound to. */
  datatype Value = Class(info: ClassInfo) | NonClass

  datatype Attr = Attr(name: string, value: Value)

  /** A loaded module: its name and its attributes in `dir()` order. */
  datatype PyModule = PyModule(name: string, attrs: seq<Attr>)

  /** Why a `LoadModuleError` was raised. */
  datatype Reason = NoClass | MoreThanOneClass | BadExtension | RaisedByModule

  /** `LoadModuleError` of alicebot/exceptions.py, or any other exception that the
      import machinery lets out (a missing module, a syntax error, ...). */
  datatype LoadError = LoadModuleError(reason: Reason) | OtherError(message: string)

  /** The `(class, config)` pair returned by `load_module`. */
  datatype Component = Component(cls: ClassInfo, config: Option<ClassInfo>)

  /** The `(class, config, module)` triple returned by the loaders. */
  datatype Loaded = Loaded(cls: ClassInfo, config: Option<ClassInfo>, pyModule: PyModule)

  /** `importlib.invalidate_caches()`, `import_module(name)` and `reload(module)`
      with the module path finder's roots as they are at the call. */
  type Importer = (seq<string>, string) -> Result<PyModule, LoadError>

  const ConfigAttr: string := "Config"
  const ConfigNameAttr: string := "__config_name__"

  /** `issubclass(c, t)`: a class is a subclass of itself and of its ancestors. */
  predicate IsSubclass(c: ClassInfo, t: ClassRef)
  {
    c.id == t || t in c.supers
  }

  /** `(inspect.getmodule(c) or module) is module`: a class whose module is
      unknown counts as declared in the module being searched. */
  predicate DeclaredIn(c: ClassInfo, m: PyModule)
  {
    c.home.None? || c.home.value == m.name
  }

  /** The filter of `load_module`: a concrete class of `m` itself that strictly
      subclasses `cap` and does not list `ABC` among its direct bases. */
  predicate IsComponent(m: PyModule, v: Value, cap: ClassRef)
  {
    && v.Class?
    && DeclaredIn(v.info, m)
    && IsSubclass(v.info, cap)
    && v.info.id != cap
    && Abc !in v.info.bases
    && !v.info.isAbstract
  }

  /** Attribute `i` holds the only component among `attrs`. */
  predicate UniqueAt(m: PyModule, attrs: seq<Attr>, cap: ClassRef, i: int)
  {
    && 0 <= i < |attrs|
    && IsComponent(m, attrs[i].value, cap)
    && forall j :: 0 <= j < |attrs| && j != i ==> !IsComponent(m, attrs[j].value, cap)
  }

  /** The classes `load_module` collects from `attrs`, in order, once per
      attribute bound to a component. */
  function Candidates(m: PyModule, attrs: seq<Attr>, cap: ClassRef): (r: seq<ClassInfo>)
    ensures |r| <= |attrs|
    ensures forall k :: 0 <= k < |r| ==>
      exists i :: 0 <= i < |attrs| && attrs[i].value == Class(r[k]) && IsComponent(m, attrs[i].value, cap)
  {
    if attrs == [] then []
    else
      var last := attrs[|attrs| - 1];
      var init := attrs[..|attrs| - 1];
      Candidates(m, init, cap) + (if IsComponent(m, last.value, cap) then [last.value.info] else [])
  }

  /** No candidate at all exactly when no attribute is a component. */
  lemma {:induction false} NoCandidate(m: PyModule, attrs: seq<Attr>, cap: ClassRef)
    ensures Candidates(m, attrs, cap) == [] <==>
      forall i :: 0 <= i < |attrs| ==> !IsComponent(m, attrs[i].value, cap)
  {
    if attrs != [] {
      var init := attrs[..|attrs| - 1];
      NoCandidate(m, init, cap);
      assert forall i :: 0 <= i < |init| ==> init[i] == attrs[i];
    }
  }

  /** A single candidate exactly when one attribute, and no other, is a
      component; the candidate is then that attribute's class. */
  lemma {:induction false} OneCandidate(m: PyModule, attrs: seq<Attr>, cap: ClassRef)
    ensures |Candidates(m, attrs, cap)| == 1 <==> exists i :: UniqueAt(m, attrs, cap, i)
    ensures forall i :: UniqueAt(m, attrs, cap, i) ==>
      Candidates(m, attrs, cap) == [attrs[i].value.info]
  {
    if attrs != [] {
      var n := |attrs| - 1;
      var init := attrs[..n];
      assert forall i :: 0 <= i < n ==> init[i] == attrs[i];
      OneCandidate(m, init, cap);
      NoCandidate(m, init, cap);
      if IsComponent(m, attrs[n].value, cap) {
        if |Candidates(m, attrs, cap)| == 1 {
          assert UniqueAt(m, attrs, cap, n);
        }
        forall i | UniqueAt(m, attrs, cap, i)
          ensures Candidates(m, attrs, cap) == [attrs[i].value.info]
        {
          assert i == n;
        }
      } else {
        forall i | UniqueAt(m, attrs, cap, i)
          ensures UniqueAt(m, init, cap, i)
        {
        }
        forall i | UniqueAt(m, init, cap, i)
          ensures UniqueAt(m, attrs, cap, i)
        {
        }
      }
    }
  }

  /** The first attribute of `attrs` with the given name is at `i`. */
  predicate FirstNamed(attrs: seq<Attr>, name: string, i: int)
  {
    && 0 <= i < |attrs|
    && attrs[i].name == name
    && forall j :: 0 <= j < i ==> attrs[j].name != name
  }

  /** There is only one first attribute of a given name. */
  lemma FirstNamedUnique(attrs: seq<Attr>, name: string, i: int)
    requires FirstNamed(attrs, name, i)
    ensures forall j :: FirstNamed(attrs, name, j) ==> j == i
  {
  }

  /** `getattr(module, name)` when `name in dir(module)`. */
  function Lookup(attrs: seq<Attr>, name: string): (r: Option<Value>)
    ensures r.None? <==> forall j :: 0 <= j < |attrs| ==> attrs[j].name != name
    ensures r.Some? ==> exists i :: FirstNamed(attrs, name, i) && attrs[i].value == r.value
  {
    if attrs == [] then None
    else if attrs[0].name == name then
      assert FirstNamed(attrs, name, 0);
      Some(attrs[0].value)
    else
      var r := Lookup(attrs[1..], name);
      assert forall j :: 0 < j < |attrs| ==> attrs[j] == attrs[1..][j - 1];
      if r.Some? then
        var i :| FirstNamed(attrs[1..], name, i) && attrs[1..][i].value == r.value;
        assert FirstNamed(attrs, name, i + 1);
        r
      else r
  }

  /** A configuration class: a pydantic model carrying `__config_name__`. */
  predicate IsConfigClass(c: ClassInfo)
  {
    IsSubclass(c, BaseModel) && ConfigNameAttr in c.members
  }

  /** The config slot of `load_module`: the class bound to `Config` when it is a
      configuration class, and nothing otherwise. */
  function ConfigOf(m: PyModule): (r: Option<ClassInfo>)
    ensures r.Some? <==> exists i ::
      FirstNamed(m.attrs, ConfigAttr, i) && m.attrs[i].value.Class? && IsConfigClass(m.attrs[i].value.info)
    ensures r.Some? ==> exists i ::
      FirstNamed(m.attrs, ConfigAttr, i) && m.attrs[i].value == Class(r.value)
  {
    var found := Lookup(m.attrs, ConfigAttr);
    if found.Some? then
      var i :| FirstNamed(m.attrs, ConfigAttr, i) && m.attrs[i].value == found.value;
      FirstNamedUnique(m.attrs, ConfigAttr, i);
      if found.value.Class? && IsConfigClass(found.value.info) then Some(found.value.info) else None
    else
      None
  }

  /** What `load_module(module, cap)` returns or raises. */
  function LoadModuleResult(m: PyModule, cap: ClassRef): (r: Result<Component, LoadError>)
  {
    var found := Candidates(m, m.attrs, cap);
    if |found| == 0 then Err(LoadModuleError(NoClass))
    else if |found| > 1 then Err(LoadModuleError(MoreThanOneClass))
    else Ok(Component(found[0], ConfigOf(m)))
  }

  /** `load_module` succeeds exactly when one attribute, and no other, holds a
      component, and returns that class with the config slot; it raises
      `LoadModuleError` for none and for more than one, whatever `Config` is. */
  lemma LoadModuleSelection(m: PyModule, cap: ClassRef)
    ensures LoadModuleResult(m, cap).Ok? <==> exists i :: UniqueAt(m, m.attrs, cap, i)
    ensures forall i :: UniqueAt(m, m.attrs, cap, i) ==>
      LoadModuleResult(m, cap) == Ok(Component(m.attrs[i].value.info, ConfigOf(m)))
    ensures LoadModuleResult(m, cap) == Err(LoadModuleError(NoClass)) <==>
      forall i :: 0 <= i < |m.attrs| ==> !IsComponent(m, m.attrs[i].value, cap)
    ensures LoadModuleResult(m, cap).Err? ==>
      LoadModuleResult(m, cap).error in {LoadModuleError(NoClass), LoadModuleError(MoreThanOneClass)}
  {
    NoCandidate(m, m.attrs, cap);
    OneCandidate(m, m.attrs, cap);
  }

  /** A component bound under two names (an alias inside its own module) is
      collected twice, so `load_module` reports more than one class. */
  lemma AliasedComponentIsAmbiguous(m: PyModule, cap: ClassRef, i: int, j: int)
    requires 0 <= i < j < |m.attrs| && m.attrs[i].value == m.attrs[j].value
    requires IsComponent(m, m.attrs[i].value, cap)
    ensures LoadModuleResult(m, cap) == Err(LoadModuleError(MoreThanOneClass))
  {
    LoadModuleSelection(m, cap);
    assert !UniqueAt(m, m.attrs, cap, i) && !UniqueAt(m, m.attrs, cap, j);
  }

  /** `load_module(module, class_type)`: the scan over `dir(module)` followed by
      the count check and the `Config` lookup. */
  method LoadModule(m: PyModule, cap: ClassRef) returns (r: Result<Component, LoadError>)
    ensures r == LoadModuleResult(m, cap)
  {
    var moduleClass: seq<ClassInfo> := [];
    var i := 0;
    while i < |m.attrs|
      invariant 0 <= i <= |m.attrs|
      invariant moduleClass == Candidates(m, m.attrs[..i], cap)
    {
      var attr := m.attrs[i].value;
      assert m.attrs[..i + 1][..i] == m.attrs[..i];
      if IsComponent(m, attr, cap) {
        moduleClass := moduleClass + [attr.info];
      }
      i := i + 1;
    }
    assert m.attrs[..i] == m.attrs;
    if |moduleClass| == 0 {
      return Err(LoadModuleError(NoClass));
    } else if |moduleClass| > 1 {
      return Err(LoadModuleError(MoreThanOneClass));
    }
    r := Ok(Component(moduleClass[0], ConfigOf(m)));
  }

  /** `load_module_from_name(name, cap)`: import (fresh) through the finder's
      roots, then `load_module`; every error propagates unchanged. */
  function LoadModuleFromName(importer: Importer, roots: seq<string>, name: string, cap: ClassRef)
    : (r: Result<Loaded, LoadError>)
    ensures importer(roots, name).Err? ==> r == Err(importer(roots, name).error)
    ensures r.Ok? ==>
      && importer(roots, name) == Ok(r.value.pyModule)
      && (exists i :: UniqueAt(r.value.pyModule, r.value.pyModule.attrs, cap, i)
                      && r.value.pyModule.attrs[i].value == Class(r.value.cls))
      && r.value.config == ConfigOf(r.value.pyModule)
    ensures importer(roots, name).Ok? ==>
      (r.Ok? <==> exists i :: UniqueAt(importer(roots, name).value, importer(roots, name).value.attrs, cap, i))
    ensures importer(roots, name).Ok? && r.Err? ==>
      r.error in {LoadModuleError(NoClass), LoadModuleError(MoreThanOneClass)}
  {
    match importer(roots, name)
    case Err(e) => Err(e)
    case Ok(m) =>
      LoadModuleSelection(m, cap);
      match LoadModuleResult(m, cap)
      case Err(e) => Err(e)
      case Ok(c) => Ok(Loaded(c.cls, c.config, m))
  }

  /** `ModulePathFinder`: a meta path finder whose roots the loaders overwrite. */
  class ModulePathFinder {
    var path: seq<string>

    constructor ()
      ensures path == []
    {
      path := [];
    }

    /** The roots `find_spec` searches: the finder's own, then the caller's
        (none when the caller passes `None`). */
    function SearchPath(extra: Option<seq<string>>): (r: seq<string>)
      reads this
      ensures |r| == |path| + (if extra.Some? then |extra.value| else 0)
      ensures r[..|path|] == path
      ensures extra.None? ==> r == path
      ensures extra.Some? ==> r[|path|..] == extra.value
    {
      path + (if extra.Some? then extra.value else [])
    }

    /** `find_spec(fullname, path)`: `PathFinder.find_spec` over `SearchPath`. */
    function FindSpec<S>(lookup: (string, seq<string>) -> Option<S>, fullname: string,
                         extra: Option<seq<string>>): Option<S>
      reads this
    {
      lookup(fullname, SearchPath(extra))
    }
  }

  /** `load_module_form_file(finder, path, cap)`: only a `.py` file is accepted,
      and it is rejected before the finder is touched or anything is imported;
      otherwise the finder's roots become exactly the file's directory and the
      module named by the file's base name is loaded. */
  method LoadModuleFromFile(finder: ModulePathFinder, path: string, cap: ClassRef, importer: Importer)
    returns (r: Result<Loaded, LoadError>)
    modifies finder
    ensures
      var (dirname, basename) := Split(path);
      var (name, ext) := SplitExt(basename);
      if ext != ".py" then
        r == Err(LoadModuleError(BadExtension)) && finder.path == old(finder.path)
      else
        finder.path == [dirname] && r == LoadModuleFromName(importer, [dirname], name, cap)
  {
    var (dirname, basename) := Split(path);
    var (name, ext) := SplitExt(basename);
    if ext != ".py" {
      return Err(LoadModuleError(BadExtension));
    }
    finder.path := [dirname];
    r := LoadModuleFromName(importer, finder.path, name, cap);
  }

  /** A plugin name starting with `_` is never loaded from a directory. */
  predicate IsPrivate(name: string)
  {
    |name| > 0 && name[0] == '_'
  }

  /** A load failure the directory loader does not swallow. */
  predicate IsOtherFailure(r: Result<Loaded, LoadError>)
  {
    r.Err? && !r.error.LoadModuleError?
  }

  /** The directory loop from the current position on: `acc` holds the modules
      loaded so far and `names` the names still to visit. */
  function Collect(load: string -> Result<Loaded, LoadError>,
                   acc: seq<Loaded>, names: seq<string>): (r: Result<seq<Loaded>, LoadError>)
    decreases |names|
  {
    if names == [] then Ok(acc)
    else if IsPrivate(names[0]) then Collect(load, acc, names[1..])
    else
      match load(names[0])
      case Ok(t) => Collect(load, acc + [t], names[1..])
      case Err(LoadModuleError(_)) => Collect(load, acc, names[1..])
      case Err(e) => Err(e)
  }

  /** The names that are not private, in order. */
  function Public(names: seq<string>): (r: seq<string>)
    ensures |r| <= |names|
    ensures forall k :: 0 <= k < |r| ==> r[k] in names && !IsPrivate(r[k])
  {
    if names == [] then []
    else (if IsPrivate(names[0]) then [] else [names[0]]) + Public(names[1..])
  }

  /** The outcome of loading each name, in order. */
  function Attempts(load: string -> Result<Loaded, LoadError>, names: seq<string>)
    : (r: seq<Result<Loaded, LoadError>>)
    ensures |r| == |names|
    ensures forall k :: 0 <= k < |r| ==> r[k] == load(names[k])
  {
    if names == [] then []
    else [load(names[0])] + Attempts(load, names[1..])
  }

  /** The values of the successful outcomes, in order. */
  function Oks(rs: seq<Result<Loaded, LoadError>>): (r: seq<Loaded>)
    ensures |r| <= |rs|
  {
    if rs == [] then []
    else (if rs[0].Ok? then [rs[0].value] else []) + Oks(rs[1..])
  }

  /** Every value `Oks` keeps comes from a successful outcome of `rs`. */
  lemma {:induction false} OksComeFromRs(rs: seq<Result<Loaded, LoadError>>)
    ensures forall k :: 0 <= k < |Oks(rs)| ==> Ok(Oks(rs)[k]) in rs
  {
    if rs != [] {
      OksComeFromRs(rs[1..]);
      var head := if rs[0].Ok? then [rs[0].value] else [];
      assert Oks(rs) == head + Oks(rs[1..]);
      forall k | 0 <= k < |Oks(rs)| ensures Ok(Oks(rs)[k]) in rs {
        if k >= |head| {
          assert Oks(rs)[k] == Oks(rs[1..])[k - |head|];
          assert Ok(Oks(rs)[k]) in rs[1..];
        }
      }
    }
  }

  /** Private names have no effect on the directory loop: they are never loaded. */
  lemma {:induction false} CollectSkipsPrivate(load: string -> Result<Loaded, LoadError>,
                                               acc: seq<Loaded>, names: seq<string>)
    ensures Collect(load, acc, names) == Collect(load, acc, Public(names))
    decreases |names|
  {
    if names != [] {
      var rest := names[1..];
      CollectSkipsPrivate(load, acc, rest);
      if IsPrivate(names[0]) {
        assert Public(names) == Public(rest);
      } else {
        var p := [names[0]] + Public(rest);
        assert Public(names) == p;
        assert p[0] == names[0] && p[1..] == Public(rest);
        match load(names[0])
        case Ok(t) => CollectSkipsPrivate(load, acc + [t], rest);
        case Err(_) =>
      }
    }
  }

  /** Loading one more public name adds its value, if it loaded, in front. */
  lemma OksAttemptsCons(load: string -> Result<Loaded, LoadError>, name: string, rest: seq<string>)
    ensures Oks(Attempts(load, [name] + rest))
      == (if load(name).Ok? then [load(name).value] else []) + Oks(Attempts(load, rest))
  {
    var p := [name] + rest;
    assert p[0] == name && p[1..] == rest;
    var att := Attempts(load, p);
    assert att[1..] == Attempts(load, rest);
  }

  /** When the directory loop succeeds it returns, after `acc`, exactly the
      successful loads of the public names in their order. */
  lemma {:induction false} CollectOk(load: string -> Result<Loaded, LoadError>,
                                     acc: seq<Loaded>, names: seq<string>)
    ensures Collect(load, acc, names).Ok? ==>
      Collect(load, acc, names).value
        == acc + Oks(Attempts(load, Public(names)))
    decreases |names|
  {
    if names == [] {
      assert Public(names) == [];
      assert Oks(Attempts(load, [])) == [];
      assert Collect(load, acc, names) == Ok(acc);
      assert acc + [] == acc;
    } else {
      var rest := names[1..];
      var tailOks := Oks(Attempts(load, Public(rest)));
      if IsPrivate(names[0]) {
        assert Public(names) == Public(rest);
        assert Collect(load, acc, names) == Collect(load, acc, rest);
        CollectOk(load, acc, rest);
        assert Collect(load, acc, names).Ok? ==>
          Collect(load, acc, names).value == acc + tailOks;
      } else {
        var first := load(names[0]);
        assert Public(names) == [names[0]] + Public(rest);
        OksAttemptsCons(load, names[0], Public(rest));
        if first.Ok? {
          assert Collect(load, acc, names)
              == Collect(load, acc + [first.value], rest);
          CollectOk(load, acc + [first.value], rest);
          assert acc + [first.value] + tailOks == acc + ([first.value] + tailOks);
          assert Collect(load, acc, names).Ok? ==>
            Collect(load, acc, names).value == acc + ([first.value] + tailOks);
        } else if first.error.LoadModuleError? {
          assert Collect(load, acc, names) == Collect(load, acc, rest);
          CollectOk(load, acc, rest);
          assert Collect(load, acc, names).Ok? ==>
            Collect(load, acc, names).value == acc + tailOks;
        } else {
          assert Collect(load, acc, names) == Err(first.error);
        }
      }
    }
  }

  /** The directory loop fails exactly when some public name fails with an
      error other than `LoadModuleError`, and it raises the first such error. */
  lemma {:induction false} CollectErr(load: string -> Result<Loaded, LoadError>,
                                      acc: seq<Loaded>, names: seq<string>)
    ensures Collect(load, acc, names).Err? <==>
      exists i :: 0 <= i < |names| && !IsPrivate(names[i])
        && IsOtherFailure(load(names[i]))
    ensures Collect(load, acc, names).Err? ==>
      exists i :: 0 <= i < |names| && !IsPrivate(names[i])
        && load(names[i])
           == Err(Collect(load, acc, names).error)
        && IsOtherFailure(load(names[i]))
        && forall j :: 0 <= j < i && !IsPrivate(names[j]) ==>
             !IsOtherFailure(load(names[j]))
    decreases |names|
  {
    if names != [] {
      var rest := names[1..];
      assert forall i :: 0 < i < |names| ==> names[i] == rest[i - 1];
      var first := load(names[0]);
      var acc' := if !IsPrivate(names[0]) && first.Ok? then acc + [first.value] else acc;
      CollectErr(load, acc', rest);
      if IsPrivate(names[0]) || !IsOtherFailure(first) {
        var c := Collect(load, acc', rest);
        assert Collect(load, acc, names) == c;
        if c.Err? {
          var i :| 0 <= i < |rest| && !IsPrivate(rest[i])
            && load(rest[i]) == Err(c.error)
            && IsOtherFailure(load(rest[i]))
            && forall j :: 0 <= j < i && !IsPrivate(rest[j]) ==>
                 !IsOtherFailure(load(rest[j]));
          assert names[i + 1] == rest[i];
        }
        forall i | 0 <= i < |names| && !IsPrivate(names[i])
          && IsOtherFailure(load(names[i]))
          ensures c.Err?
        {
          assert i > 0 && rest[i - 1] == names[i];
        }
      }
    }
  }

  /** What the directory loop does with one name: `load_module_from_name`
      with the finder's roots set to `roots`. */
  function LoaderFor(importer: Importer, roots: seq<string>, cap: ClassRef)
    : (load: string -> Result<Loaded, LoadError>)
  {
    name => LoadModuleFromName(importer, roots, name, cap)
  }

  /** `load_modules_from_dir(finder, roots, cap)`: the finder's roots become
      `roots`; every module listed there whose name does not start with `_` is
      loaded in listing order; a `LoadModuleError` skips that module, any other
      error ends the whole call. */
  method LoadModulesFromDir(finder: ModulePathFinder, roots: seq<string>, cap: ClassRef,
                            importer: Importer, iterModules: seq<string> -> seq<string>)
    returns (r: Result<seq<Loaded>, LoadError>)
    modifies finder
    ensures finder.path == roots
    ensures r == Collect(LoaderFor(importer, roots, cap), [], iterModules(roots))
  {
    var modules: seq<Loaded> := [];
    finder.path := roots;
    var names := iterModules(roots);
    var i := 0;
    while i < |names|
      invariant 0 <= i <= |names|
      invariant finder.path == roots
      invariant Collect(LoaderFor(importer, roots, cap), modules, names[i..])
             == Collect(LoaderFor(importer, roots, cap), [], names)
    {
      var name := names[i];
      assert names[i..][0] == name && names[i..][1..] == names[i + 1..];
      if !IsPrivate(name) {
        var loaded := LoadModuleFromName(importer, finder.path, name, cap);
        match loaded
        case Ok(t) =>
          modules := modules + [t];
        case Err(e) =>
          if !e.LoadModuleError? {
            return Err(e);
          }
      }
      i := i + 1;
    }
    r := Ok(modules);
  }

  /** The successful result of a directory load has at most one entry per
      public name, and every entry is the successful load of a public name. */
  lemma DirectoryResultBound(load: string -> Result<Loaded, LoadError>, names: seq<string>)
    ensures Collect(load, [], names).Ok? ==>
      var loaded := Collect(load, [], names).value;
      && |loaded| <= |Public(names)|
      && forall k :: 0 <= k < |loaded| ==>
           (exists i :: 0 <= i < |names| && !IsPrivate(names[i]) && load(names[i]) == Ok(loaded[k]))
  {
    CollectOk(load, [], names);
    var att := Attempts(load, Public(names));
    OksComeFromRs(att);
    if Collect(load, [], names).Ok? {
      var loaded := Collect(load, [], names).value;
      assert loaded == Oks(att);
      forall k | 0 <= k < |loaded|
        ensures exists i :: (0 <= i < |names| && !IsPrivate(names[i]) && load(names[i]) == Ok(loaded[k]))
      {
        var a :| 0 <= a < |att| && att[a] == Ok(loaded[k]);
        var nm := Public(names)[a];
        var i :| 0 <= i < |names| && names[i] == nm;
      }
    }
  }
}
