/** The library loader (`LibraryLoader`): finds a library header on an
    ordered search path, parses it once, caches its declarations by id, and
    keeps a stack of the ids being loaded to reject import cycles.

    The loader's state is a value threaded through every call. The file
    system is the set of existing paths and the parser is an oracle mapping a
    header path to its imports and its own declarations (or a rejection);
    the parser loads a header's imports, in order, through the same loader
    before the header's declarations are returned. */
module Loader {

  datatype LoadError =
    | RecursiveImport(from: string, id: string)
    | NoSuchLibrary(id: string)
    | ParseFailure(path: string, message: string)

  /** The text each failure carries. */
  function Message(e: LoadError): string
  {
    match e
    case RecursiveImport(from, id) => "recursive import from " + from + ": " + id
    case NoSuchLibrary(id) => "no such library header file: " + id
    case ParseFailure(_, message) => message
  }

  datatype Result<T> = Success(value: T) | Failure(error: LoadError)

  /** What the parser reads from a header: the ids it imports, in order, and
      the declarations of its own (kept opaque). */
  datatype Header = Header(imports: seq<string>, body: seq<string>)

  datatype ParseResult = Parsed(header: Header) | Rejected(message: string)

  /** The world the loader runs in: which paths exist, and what parsing each
      existing path yields. */
  datatype Env = Env(files: set<string>, parse: map<string, ParseResult>)

  predicate WellFormed(env: Env)
  {
    env.files <= env.parse.Keys
  }

  /** The declarations of one library: its header path, its own body, and the
      declarations of its imports in import order. */
  datatype Declarations = Declarations(file: string, body: seq<string>, imported: seq<Declarations>)

  /** The loader's state: search path, stack of ids being loaded, cache. */
  datatype LibraryLoader = LibraryLoader(
    loadPath: seq<string>,
    loading: seq<string>,
    loaded: map<string, Declarations>)

  datatype Outcome<T> =
    | Done(value: T, state: LibraryLoader)
    | Failed(error: LoadError, state: LibraryLoader)

  function DefaultLoadPath(): seq<string>
  {
    ["."]
  }

  /** The constructor taking a search path: nothing loading, nothing cached. */
  function NewLoader(loadPath: seq<string>): LibraryLoader
  {
    LibraryLoader(loadPath, [], map[])
  }

  /** The no-argument constructor: the default search path. */
  function DefaultLoader(): LibraryLoader
  {
    NewLoader(DefaultLoadPath())
  }

  function AddLoadPath(st: LibraryLoader, path: string): LibraryLoader
  {
    st.(loadPath := st.loadPath + [path])
  }

  /** `libPath`: the id with every `.` turned into `/`. */
  function LibPath(id: string): (r: string)
    ensures |r| == |id|
    ensures forall i | 0 <= i < |id| :: r[i] == (if id[i] == '.' then '/' else id[i])
    ensures '.' !in r
  {
    if |id| == 0 then ""
    else [if id[0] == '.' then '/' else id[0]] + LibPath(id[1..])
  }

  /** The header path tried for `id` in directory `dir`. */
  function Candidate(dir: string, id: string): string
  {
    dir + "/" + LibPath(id) + ".hb"
  }

  /** `searchLibrary`: the candidate of the first directory, in search-path
      order, whose candidate exists. */
  function Search(loadPath: seq<string>, id: string, files: set<string>): (r: Result<string>)
    ensures r.Failure? <==> forall i | 0 <= i < |loadPath| :: Candidate(loadPath[i], id) !in files
    ensures r.Failure? ==> r.error == NoSuchLibrary(id)
    ensures r.Success? ==> r.value in files
    ensures r.Success? ==>
      exists i | 0 <= i < |loadPath| ::
        && r.value == Candidate(loadPath[i], id)
        && r.value in files
        && forall j | 0 <= j < i :: Candidate(loadPath[j], id) !in files
  {
    if |loadPath| == 0 then Failure(NoSuchLibrary(id))
    else if Candidate(loadPath[0], id) in files then Success(Candidate(loadPath[0], id))
    else
      var r := Search(loadPath[1..], id, files);
      if r.Success? then
        var i :| 0 <= i < |loadPath[1..]|
              && r.value == Candidate(loadPath[1..][i], id)
              && r.value in files
              && forall j | 0 <= j < i :: Candidate(loadPath[1..][j], id) !in files;
        assert r.value == Candidate(loadPath[i + 1], id);
        r
      else
        assert forall i | 1 <= i < |loadPath| :: Candidate(loadPath[i], id) == Candidate(loadPath[1..][i - 1], id);
        r
  }

  // The cycle-detection stack and the termination measure.

  function Elems(s: seq<string>): set<string>
  {
    set x | x in s
  }

  /** No id occurs twice: each element is absent from the ones before it. */
  predicate NoDup(s: seq<string>)
  {
    |s| == 0 || (s[|s| - 1] !in s[..|s| - 1] && NoDup(s[..|s| - 1]))
  }

  /** Every id some header imports. */
  function KnownIds(env: Env): set<string>
  {
    set p, i | p in env.parse && env.parse[p].Parsed? && 0 <= i < |env.parse[p].header.imports|
             :: env.parse[p].header.imports[i]
  }

  /** The ids that could still be pushed: a load can only push an id not yet
      on the stack, so this shrinks along every chain of nested loads. */
  function Budget(env: Env, st: LibraryLoader, extra: set<string>): nat
  {
    |(KnownIds(env) + extra) - Elems(st.loading)|
  }

  lemma CardSubset(a: set<string>, b: set<string>)
    requires a <= b
    ensures |a| <= |b|
  {
    assert b == a + (b - a);
  }

  lemma PushShrinksBudget(env: Env, st: LibraryLoader, id: string)
    requires id !in st.loading
    ensures Budget(env, st.(loading := st.loading + [id]), {}) < Budget(env, st, {id})
  {
    ElemsPush(st.loading, id);
    FreshShrinks(KnownIds(env), Elems(st.loading), id);
  }

  lemma ElemsPush(s: seq<string>, x: string)
    ensures Elems(s + [x]) == Elems(s) + {x}
    ensures x !in s ==> x !in Elems(s)
  {
  }

  /** Taking one more fresh element out of a set shrinks what is left. */
  lemma FreshShrinks(k: set<string>, e: set<string>, x: string)
    requires x !in e
    ensures |k - (e + {x})| < |(k + {x}) - e|
  {
    assert (k + {x}) - e == (k - (e + {x})) + {x};
  }

  lemma GrowingStackShrinksBudget(env: Env, st: LibraryLoader, st': LibraryLoader)
    requires st.loading <= st'.loading
    ensures Budget(env, st', {}) <= Budget(env, st, {})
  {
    CardSubset(KnownIds(env) - Elems(st'.loading), KnownIds(env) - Elems(st.loading));
  }

  lemma KnownAbsorbs(env: Env, st: LibraryLoader, x: string)
    requires x in KnownIds(env)
    ensures Budget(env, st, {x}) == Budget(env, st, {})
  {
    assert KnownIds(env) + {x} == KnownIds(env);
  }

  /** Popping the top of a stack that grew from `base + [id]` leaves `base` at
      the bottom. */
  lemma PopKeepsBase(base: seq<string>, id: string, s: seq<string>)
    requires base + [id] <= s
    ensures |s| > 0 && base <= s[..|s| - 1]
  {
    assert s[..|base| + 1] == base + [id];
    assert s[..|s| - 1][..|base|] == base;
  }

  lemma HeaderImportsKnown(env: Env, path: string)
    requires path in env.parse && env.parse[path].Parsed?
    ensures forall i | 0 <= i < |env.parse[path].header.imports| :: env.parse[path].header.imports[i] in KnownIds(env)
  {
  }

  /** How a later loader state relates to an earlier one across any load:
      same search path, the old stack still at the bottom, every cached entry
      kept, and only ids that were not being loaded newly cached. */
  predicate Grows(st: LibraryLoader, st': LibraryLoader)
  {
    && st'.loadPath == st.loadPath
    && st.loading <= st'.loading
    && (forall k | k in st.loaded :: k in st'.loaded && st'.loaded[k] == st.loaded[k])
    && (forall k | k in st'.loaded && k !in st.loaded :: k !in st.loading)
  }

  lemma PrefixTransitive(a: seq<string>, b: seq<string>, c: seq<string>)
    requires a <= b && b <= c
    ensures a <= c
  {
    assert c[..|a|] == c[..|b|][..|a|];
  }

  lemma GrowsTransitive(a: LibraryLoader, b: LibraryLoader, c: LibraryLoader)
    requires Grows(a, b) && Grows(b, c)
    ensures Grows(a, c)
  {
    assert c.loading[..|b.loading|] == b.loading;
    assert c.loading[..|a.loading|] == c.loading[..|b.loading|][..|a.loading|];
  }

  /** `loadLibrary`. With `popOnCacheHit` false this is the source as
      written: a cache hit returns before the pushed id is popped, so it stays
      on the stack. With `popOnCacheHit` true the hit path pops it too. */
  function Load(st: LibraryLoader, id: string, env: Env, popOnCacheHit: bool): (out: Outcome<Declarations>)
    requires WellFormed(env)
    ensures out.state.loadPath == st.loadPath && st.loading <= out.state.loading
    ensures id in st.loading ==>
      out == Failed(RecursiveImport(st.loading[|st.loading| - 1], id), st)
    ensures id !in st.loading && id in st.loaded ==>
      out == Done(st.loaded[id], st.(loading := if popOnCacheHit then st.loading else st.loading + [id]))
    ensures id !in st.loading && id !in st.loaded && Search(st.loadPath, id, env.files).Failure? ==>
      out == Failed(NoSuchLibrary(id), st.(loading := st.loading + [id]))
    decreases Budget(env, st, {id}), 0, 1
  {
    if id in st.loading then
      Failed(RecursiveImport(st.loading[|st.loading| - 1], id), st)
    else if id in st.loaded then
      Done(st.loaded[id], if popOnCacheHit then st else st.(loading := st.loading + [id]))
    else
      match Search(st.loadPath, id, env.files)
      case Failure(e) => Failed(e, st.(loading := st.loading + [id]))
      case Success(path) => LoadFresh(st, id, path, env, popOnCacheHit)
  }

  /** The cache-miss branch of `loadLibrary` once the header is found at
      `path`: with `id` pushed, parse it (loading its imports), cache the
      declarations under `id` and pop. */
  function LoadFresh(st: LibraryLoader, id: string, path: string, env: Env, popOnCacheHit: bool)
    : (out: Outcome<Declarations>)
    requires WellFormed(env)
    requires id !in st.loading && path in env.files
    ensures out.state.loadPath == st.loadPath && st.loading <= out.state.loading
    ensures out.Failed? ==> st.loading + [id] <= out.state.loading
    ensures out.Done? ==> out.value.file == path
    decreases Budget(env, st, {id}), 0, 0
  {
    var pushed := st.(loading := st.loading + [id]);
    match env.parse[path]
    case Rejected(message) => Failed(ParseFailure(path, message), pushed)
    case Parsed(header) =>
      PushShrinksBudget(env, st, id);
      HeaderImportsKnown(env, path);
      var nested := LoadAll(pushed, header.imports, env, popOnCacheHit);
      assert pushed.loading <= nested.state.loading;
      PrefixTransitive(st.loading, pushed.loading, nested.state.loading);
      if nested.Failed? then Failed(nested.error, nested.state)
      else
        var s := nested.state;
        var decls := Declarations(path, header.body, nested.value);
        PopKeepsBase(st.loading, id, s.loading);
        Done(decls, CacheAndPop(s, id, decls))
  }

  /** After parsing: store the declarations under `id` and pop the stack. */
  function CacheAndPop(s: LibraryLoader, id: string, decls: Declarations): LibraryLoader
    requires |s.loading| > 0
  {
    s.(loaded := s.loaded[id := decls], loading := s.loading[..|s.loading| - 1])
  }

  /** The parser loading a header's imports in order, stopping at the first
      failure. */
  function LoadAll(st: LibraryLoader, ids: seq<string>, env: Env, popOnCacheHit: bool)
    : (out: Outcome<seq<Declarations>>)
    requires WellFormed(env)
    requires forall i | 0 <= i < |ids| :: ids[i] in KnownIds(env)
    ensures out.state.loadPath == st.loadPath && st.loading <= out.state.loading
    ensures out.Done? ==> |out.value| == |ids|
    decreases Budget(env, st, {}), |ids|, 0
  {
    if |ids| == 0 then Done([], st)
    else
      KnownAbsorbs(env, st, ids[0]);
      var first := Load(st, ids[0], env, popOnCacheHit);
      if first.Failed? then Failed(first.error, first.state)
      else
        var s := first.state;
        GrowingStackShrinksBudget(env, st, s);
        var rest := LoadAll(s, ids[1..], env, popOnCacheHit);
        PrefixTransitive(st.loading, s.loading, rest.state.loading);
        if rest.Failed? then Failed(rest.error, rest.state)
        else Done([first.value] + rest.value, rest.state)
  }

  /** Invariants of every load: the state grows (see `Grows`), a stack
      without duplicates keeps none, a successful load leaves its result
      cached under its id, and with the hit path popping, a successful load
      leaves the stack exactly as it found it. */
  lemma {:induction false} LoadInvariants(st: LibraryLoader, id: string, env: Env, popOnCacheHit: bool)
    requires WellFormed(env)
    ensures var out := Load(st, id, env, popOnCacheHit);
      && Grows(st, out.state)
      && (NoDup(st.loading) ==> NoDup(out.state.loading))
      && (popOnCacheHit && out.Done? ==> out.state.loading == st.loading)
    decreases Budget(env, st, {id}), 0, 1
  {
    PushKeepsInvariants(st, id);
    if id !in st.loading && id !in st.loaded {
      var r := Search(st.loadPath, id, env.files);
      if r.Success? {
        LoadFreshInvariants(st, id, r.value, env, popOnCacheHit);
      }
    }
  }

  /** The same invariants for the cache-miss branch. */
  lemma {:induction false} LoadFreshInvariants(st: LibraryLoader, id: string, path: string, env: Env, popOnCacheHit: bool)
    requires WellFormed(env)
    requires id !in st.loading && id !in st.loaded && path in env.files
    ensures var out := LoadFresh(st, id, path, env, popOnCacheHit);
      && Grows(st, out.state)
      && (NoDup(st.loading) ==> NoDup(out.state.loading))
      && (popOnCacheHit && out.Done? ==> out.state.loading == st.loading)
    decreases Budget(env, st, {id}), 0, 0
  {
    var pushed := st.(loading := st.loading + [id]);
    PushKeepsInvariants(st, id);
    if env.parse[path].Parsed? {
      var header := env.parse[path].header;
      PushShrinksBudget(env, st, id);
      HeaderImportsKnown(env, path);
      LoadAllInvariants(pushed, header.imports, env, popOnCacheHit);
      var nested := LoadAll(pushed, header.imports, env, popOnCacheHit);
      if nested.Done? {
        var s := nested.state;
        var decls := Declarations(path, header.body, nested.value);
        PopKeepsInvariants(st, id, s, decls);
      } else {
        GrowsTransitive(st, pushed, nested.state);
      }
    }
  }

  /** A successful load leaves its result cached under its id. */
  lemma LoadCaches(st: LibraryLoader, id: string, env: Env, popOnCacheHit: bool)
    requires WellFormed(env)
    ensures var out := Load(st, id, env, popOnCacheHit);
      out.Done? ==> id in out.state.loaded && out.state.loaded[id] == out.value
  {
    if id !in st.loading && id !in st.loaded {
      var r := Search(st.loadPath, id, env.files);
      if r.Success? {
        LoadFreshCaches(st, id, r.value, env, popOnCacheHit);
      }
    }
  }

  lemma LoadFreshCaches(st: LibraryLoader, id: string, path: string, env: Env, popOnCacheHit: bool)
    requires WellFormed(env)
    requires id !in st.loading && path in env.files
    ensures var out := LoadFresh(st, id, path, env, popOnCacheHit);
      out.Done? ==> id in out.state.loaded && out.state.loaded[id] == out.value
  {
  }

  /** Pushing an id that is not being loaded: the state grows and the stack
      keeps no duplicates. */
  lemma PushKeepsInvariants(st: LibraryLoader, id: string)
    ensures Grows(st, st.(loading := st.loading + [id]))
    ensures id !in st.loading && NoDup(st.loading) ==> NoDup(st.loading + [id])
  {
    assert (st.loading + [id])[..|st.loading|] == st.loading;
  }

  /** Caching a freshly parsed library and popping its id, after its imports
      were loaded from the pushed state `st.loading + [id]` into `s`. */
  lemma PopKeepsInvariants(st: LibraryLoader, id: string, s: LibraryLoader, decls: Declarations)
    requires id !in st.loading && id !in st.loaded
    requires Grows(st.(loading := st.loading + [id]), s)
    ensures |s.loading| > 0
    ensures var out := CacheAndPop(s, id, decls);
      && Grows(st, out)
      && (NoDup(s.loading) ==> NoDup(out.loading))
      && (s.loading == st.loading + [id] ==> out.loading == st.loading)
  {
    PopKeepsBase(st.loading, id, s.loading);
    assert id !in s.loaded;
    if NoDup(s.loading) {
      assert NoDup(s.loading[..|s.loading| - 1]);
    }
  }

  /** Invariants of loading a header's imports: the state grows, a stack
      without duplicates keeps none, and with the hit path popping, success
      leaves the stack as it was. */
  lemma {:induction false} LoadAllInvariants(st: LibraryLoader, ids: seq<string>, env: Env, popOnCacheHit: bool)
    requires WellFormed(env)
    requires forall i | 0 <= i < |ids| :: ids[i] in KnownIds(env)
    ensures var out := LoadAll(st, ids, env, popOnCacheHit);
      && Grows(st, out.state)
      && (NoDup(st.loading) ==> NoDup(out.state.loading))
      && (popOnCacheHit && out.Done? ==> out.state.loading == st.loading)
    decreases Budget(env, st, {}), |ids|, 0
  {
    if |ids| > 0 {
      KnownAbsorbs(env, st, ids[0]);
      LoadInvariants(st, ids[0], env, popOnCacheHit);
      var first := Load(st, ids[0], env, popOnCacheHit);
      if first.Done? {
        var s := first.state;
        GrowingStackShrinksBudget(env, st, s);
        LoadAllInvariants(s, ids[1..], env, popOnCacheHit);
        GrowsTransitive(st, s, LoadAll(s, ids[1..], env, popOnCacheHit).state);
      }
    }
  }

  /** After a header's imports load successfully, every import is cached and
      the result lists the cached declarations in import order. */
  lemma {:induction false} LoadAllCaches(st: LibraryLoader, ids: seq<string>, env: Env, popOnCacheHit: bool)
    requires WellFormed(env)
    requires forall i | 0 <= i < |ids| :: ids[i] in KnownIds(env)
    requires LoadAll(st, ids, env, popOnCacheHit).Done?
    ensures var out := LoadAll(st, ids, env, popOnCacheHit);
      forall i | 0 <= i < |ids| :: ids[i] in out.state.loaded && out.value[i] == out.state.loaded[ids[i]]
    decreases |ids|
  {
    if |ids| > 0 {
      LoadInvariants(st, ids[0], env, popOnCacheHit);
      LoadCaches(st, ids[0], env, popOnCacheHit);
      var first := Load(st, ids[0], env, popOnCacheHit);
      var s := first.state;
      LoadAllCaches(s, ids[1..], env, popOnCacheHit);
      LoadAllInvariants(s, ids[1..], env, popOnCacheHit);
      var rest := LoadAll(s, ids[1..], env, popOnCacheHit);
      var out := LoadAll(st, ids, env, popOnCacheHit);
      assert out.value == [first.value] + rest.value;
      forall i | 0 <= i < |ids|
        ensures ids[i] in out.state.loaded && out.value[i] == out.state.loaded[ids[i]]
      {
        if i > 0 {
          assert ids[i] == ids[1..][i - 1];
        }
      }
    }
  }

  /** A load that parses: the declarations are the first matching header's
      own body followed by the cached declarations of its imports in order;
      the id was not among those imports; the stack is back to its entry
      state whenever the nested loads left it as they found it. */
  lemma FreshLoad(st: LibraryLoader, id: string, env: Env, popOnCacheHit: bool)
    requires WellFormed(env)
    requires id !in st.loading && id !in st.loaded
    requires Load(st, id, env, popOnCacheHit).Done?
    ensures var out := Load(st, id, env, popOnCacheHit);
      && Search(st.loadPath, id, env.files).Success?
      && var path := Search(st.loadPath, id, env.files).value;
      && path in env.parse && env.parse[path].Parsed?
      && var header := env.parse[path].header;
      && out.value.file == path
      && out.value.body == header.body
      && |out.value.imported| == |header.imports|
      && (forall i | 0 <= i < |header.imports| ::
            && header.imports[i] != id
            && header.imports[i] in out.state.loaded
            && out.value.imported[i] == out.state.loaded[header.imports[i]])
      && var nested := LoadAll(st.(loading := st.loading + [id]), header.imports, env, popOnCacheHit);
      && (nested.state.loading == st.loading + [id] ==> out.state.loading == st.loading)
  {
    var path := Search(st.loadPath, id, env.files).value;
    var header := env.parse[path].header;
    var pushed := st.(loading := st.loading + [id]);
    HeaderImportsKnown(env, path);
    LoadAllInvariants(pushed, header.imports, env, popOnCacheHit);
    LoadAllCaches(pushed, header.imports, env, popOnCacheHit);
    var s := LoadAll(pushed, header.imports, env, popOnCacheHit).state;
    assert id in pushed.loading;
    assert id !in s.loaded;
  }

  /** `loadLibrary` as the source has it. */
  function LoadLibrary(st: LibraryLoader, id: string, env: Env): Outcome<Declarations>
    requires WellFormed(env)
  {
    Load(st, id, env, false)
  }

  /** `loadLibrary` with the pushed id popped on the cache-hit path as well. */
  function LoadLibraryFixed(st: LibraryLoader, id: string, env: Env): Outcome<Declarations>
    requires WellFormed(env)
  {
    Load(st, id, env, true)
  }

  /** As written, the same id cannot be loaded three times in a row: the
      second load hits the cache and leaves the id on the stack, so the third
      is rejected as a recursive import of the id from itself. */
  lemma AsWrittenThirdLoadRejected(st: LibraryLoader, id: string, env: Env)
    requires WellFormed(env)
    requires LoadLibrary(st, id, env).Done?
    ensures var first := LoadLibrary(st, id, env);
      var second := LoadLibrary(first.state, id, env);
      LoadLibrary(second.state, id, env).Failed?
    ensures var first := LoadLibrary(st, id, env);
      var second := LoadLibrary(first.state, id, env);
      second.Failed? ||
      (&& second.value == first.value
       && LoadLibrary(second.state, id, env) == Failed(RecursiveImport(id, id), second.state))
  {
    LoadInvariants(st, id, env, false);
    LoadCaches(st, id, env, false);
  }

  /** The smallest instance: one header with no imports, found through the
      default search path, loaded three times from a fresh loader. */
  lemma AsWrittenRepeatImportExample()
    ensures var env := Env({"./x.hb"}, map["./x.hb" := Parsed(Header([], []))]);
      var first := LoadLibrary(DefaultLoader(), "x", env);
      var second := LoadLibrary(first.state, "x", env);
      var third := LoadLibrary(second.state, "x", env);
      && first.Done? && first.state.loading == []
      && second.Done? && second.value == first.value && second.state.loading == ["x"]
      && third == Failed(RecursiveImport("x", "x"), second.state)
      && Message(third.error) == "recursive import from x: x"
  {
    var env := Env({"./x.hb"}, map["./x.hb" := Parsed(Header([], []))]);
    assert LibPath("x") == "x";
    assert Candidate(".", "x") == "./x.hb";
    var st := DefaultLoader();
    assert Search(st.loadPath, "x", env.files) == Success("./x.hb");
    var pushed := st.(loading := ["x"]);
    assert LoadAll(pushed, [], env, false) == Done([], pushed);
    var first := LoadLibrary(st, "x", env);
    assert first.state.loading == [];
    LoadInvariants(st, "x", env, false);
    LoadCaches(st, "x", env, false);
  }

  /** The world of the nested example: `a` imports `b`, `b` imports nothing. */
  function NestedEnv(): Env
  {
    Env({"./a.hb", "./b.hb"},
        map["./a.hb" := Parsed(Header(["b"], [])), "./b.hb" := Parsed(Header([], []))])
  }

  /** First step of the nested example: `b` loads from an empty loader and is cached. */
  lemma NestedLoadB()
    ensures var bDecls := Declarations("./b.hb", [], []);
      LoadLibrary(DefaultLoader(), "b", NestedEnv())
        == Done(bDecls, LibraryLoader(["."], [], map["b" := bDecls]))
  {
    var env := NestedEnv();
    assert LibPath("b") == "b";
    assert Candidate(".", "b") == "./b.hb";
    var st := DefaultLoader();
    assert Search(st.loadPath, "b", env.files) == Success("./b.hb");
    assert LoadAll(st.(loading := ["b"]), [], env, false) == Done([], st.(loading := ["b"]));
  }

  /** Second step: `a` loads, hitting `b` in the cache; its `removeLast` pops
      `b`, so `a` stays on the stack. */
  lemma NestedLoadA()
    ensures var bDecls := Declarations("./b.hb", [], []);
      var aDecls := Declarations("./a.hb", [], [bDecls]);
      LoadLibrary(LibraryLoader(["."], [], map["b" := bDecls]), "a", NestedEnv())
        == Done(aDecls, LibraryLoader(["."], ["a"], map["b" := bDecls, "a" := aDecls]))
  {
    var env := NestedEnv();
    assert LibPath("a") == "a";
    assert Candidate(".", "a") == "./a.hb";
    var bDecls := Declarations("./b.hb", [], []);
    var s1 := LibraryLoader(["."], [], map["b" := bDecls]);
    assert Search(s1.loadPath, "a", env.files) == Success("./a.hb");
    var pushed := s1.(loading := ["a"]);
    var afterB := pushed.(loading := ["a", "b"]);
    assert Load(pushed, "b", env, false) == Done(bDecls, afterB);
    assert LoadAll(afterB, [], env, false) == Done([], afterB);
    assert ["b"][1..] == [] && [bDecls] + [] == [bDecls];
    HeaderImportsKnown(env, "./a.hb");
    assert LoadAll(pushed, ["b"], env, false) == Done([bDecls], afterB);
    assert s1.loading + ["a"] == ["a"];
  }

  /** The same quirk one level down: `b` is loaded, then `a`, which imports
      `b`. The nested cache hit leaves `b` on the stack, the importer's pop
      removes `b` instead of `a`, and `a` stays behind: loading `a` again is
      rejected as a recursive import of itself. */
  lemma AsWrittenNestedHitExample()
    ensures var env := NestedEnv();
      var first := LoadLibrary(DefaultLoader(), "b", env);
      var second := LoadLibrary(first.state, "a", env);
      var third := LoadLibrary(second.state, "a", env);
      && first.Done? && first.state.loading == []
      && second.Done? && second.state.loading == ["a"]
      && third == Failed(RecursiveImport("a", "a"), second.state)
      && Message(third.error) == "recursive import from a: a"
  {
    assert Message(RecursiveImport("a", "a")) == "recursive import from a: a";
    NestedLoadB();
    NestedLoadA();
    var bDecls := Declarations("./b.hb", [], []);
    var aDecls := Declarations("./a.hb", [], [bDecls]);
    var s2 := LibraryLoader(["."], ["a"], map["b" := bDecls, "a" := aDecls]);
    assert LoadLibrary(s2, "a", NestedEnv()) == Failed(RecursiveImport("a", "a"), s2);
  }

  /** The world of the cycle example: `a` imports `b` and `b` imports `a`. */
  function CycleEnv(): Env
  {
    Env({"./a.hb", "./b.hb"},
        map["./a.hb" := Parsed(Header(["b"], [])), "./b.hb" := Parsed(Header(["a"], []))])
  }

  /** Inner step of the cycle example: with `a` on the stack, loading `b`
      pushes it and then meets `a` again. */
  lemma CycleInnerLoad(popOnCacheHit: bool)
    ensures Load(LibraryLoader(["."], ["a"], map[]), "b", CycleEnv(), popOnCacheHit)
      == Failed(RecursiveImport("b", "a"), LibraryLoader(["."], ["a", "b"], map[]))
  {
    var env := CycleEnv();
    assert LibPath("b") == "b";
    assert Candidate(".", "b") == "./b.hb";
    var s1 := LibraryLoader(["."], ["a"], map[]);
    var s2 := LibraryLoader(["."], ["a", "b"], map[]);
    assert Search(s1.loadPath, "b", env.files) == Success("./b.hb");
    HeaderImportsKnown(env, "./b.hb");
    var failure: Outcome<Declarations> := Failed(RecursiveImport("b", "a"), s2);
    var failures: Outcome<seq<Declarations>> := Failed(RecursiveImport("b", "a"), s2);
    assert Load(s2, "a", env, popOnCacheHit) == failure;
    assert LoadAll(s2, ["a"], env, popOnCacheHit) == failures;
    assert s1.loading + ["b"] == ["a", "b"];
    assert LoadFresh(s1, "b", "./b.hb", env, popOnCacheHit) == failure;
  }

  /** An import cycle: `a` imports `b`, which imports `a`. Loading `a` fails
      as a recursive import of `a` from `b`, whether or not cache hits pop,
      and the stack keeps both ids. */
  lemma ImportCycleExample(popOnCacheHit: bool)
    ensures var out := Load(DefaultLoader(), "a", CycleEnv(), popOnCacheHit);
      && out.Failed? && out.error == RecursiveImport("b", "a")
      && out.state.loading == ["a", "b"]
      && Message(out.error) == "recursive import from b: a"
  {
    assert Message(RecursiveImport("b", "a")) == "recursive import from b: a";
    var env := CycleEnv();
    CycleInnerLoad(popOnCacheHit);
    assert LibPath("a") == "a";
    assert Candidate(".", "a") == "./a.hb";
    var st := DefaultLoader();
    var s1 := LibraryLoader(["."], ["a"], map[]);
    var s2 := LibraryLoader(["."], ["a", "b"], map[]);
    assert Search(st.loadPath, "a", env.files) == Success("./a.hb");
    HeaderImportsKnown(env, "./a.hb");
    var failure: Outcome<Declarations> := Failed(RecursiveImport("b", "a"), s2);
    var failures: Outcome<seq<Declarations>> := Failed(RecursiveImport("b", "a"), s2);
    assert LoadAll(s1, ["b"], env, popOnCacheHit) == failures;
    assert st.loading + ["a"] == ["a"];
    assert LoadFresh(st, "a", "./a.hb", env, popOnCacheHit) == failure;
  }

  /** With the hit path popping, loading an id again returns the very same
      declarations and leaves the state untouched: the library is parsed once,
      however often it is imported. */
  lemma FixedRepeatLoadIsCached(st: LibraryLoader, id: string, env: Env)
    requires WellFormed(env)
    requires LoadLibraryFixed(st, id, env).Done?
    ensures var first := LoadLibraryFixed(st, id, env);
      LoadLibraryFixed(first.state, id, env) == Done(first.value, first.state)
  {
    LoadInvariants(st, id, env, true);
    LoadCaches(st, id, env, true);
  }

  // The search path.

  lemma {:induction false} SearchAppend(loadPath: seq<string>, dir: string, id: string, files: set<string>)
    ensures Search(loadPath + [dir], id, files)
         == if Search(loadPath, id, files).Success? then Search(loadPath, id, files)
            else if Candidate(dir, id) in files then Success(Candidate(dir, id))
            else Failure(NoSuchLibrary(id))
    decreases |loadPath|
  {
    if |loadPath| > 0 {
      assert (loadPath + [dir])[1..] == loadPath[1..] + [dir];
      SearchAppend(loadPath[1..], dir, id, files);
    }
  }

  /** `addLoadPath` puts the directory last: it is consulted only when no
      earlier directory holds the header. */
  lemma AddedPathHasLowestPriority(st: LibraryLoader, dir: string, id: string, files: set<string>)
    ensures Search(AddLoadPath(st, dir).loadPath, id, files)
         == if Search(st.loadPath, id, files).Success? then Search(st.loadPath, id, files)
            else if Candidate(dir, id) in files then Success(Candidate(dir, id))
            else Failure(NoSuchLibrary(id))
  {
    SearchAppend(st.loadPath, dir, id, files);
  }

  /** A fresh default loader searches the current directory only, has nothing
      loading and nothing cached. */
  lemma DefaultLoaderSearchesCurrentDirectory(id: string, files: set<string>)
    ensures DefaultLoader().loading == [] && DefaultLoader().loaded == map[]
    ensures Search(DefaultLoader().loadPath, id, files)
         == if "./" + LibPath(id) + ".hb" in files then Success("./" + LibPath(id) + ".hb")
            else Failure(NoSuchLibrary(id))
  {
    assert Candidate(".", id) == "./" + LibPath(id) + ".hb";
  }
}
