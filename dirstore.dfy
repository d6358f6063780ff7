/**
 * Loading a cluster configuration from a directory (clustersconfig/dir.go): the directory
 * store lists the YAML files of a sub-directory by name and reads one by key, and
 * `FromDir` loads the clusters, groups, hosts, templates, SSL configuration and
 * certificate requests from it. YAML decoding is a parameter.
 */
module ClustersDir {
  import opened Wrappers
  import opened Text
  import opened Files
  import opened Seqs
  import opened ClustersConfig

  /** The YAML decoders: each fills in a record it is given, or reports a decoding error. */
  datatype Yaml = Yaml(
    cluster: (Cluster, string) -> Result<Cluster, Error>,
    group: (Group, string) -> Result<Group, Error>,
    host: (Host, string) -> Result<Host, Error>,
    certRequests: string -> Result<seq<CertRequest>, Error>)

  /** `&Cluster{Name: name}` and its siblings: a record with only its name set. */
  function BlankCluster(name: string): (c: Cluster)
    ensures c.name == name
  {
    Cluster(name, "", Subnets("", ""))
  }

  function BlankGroup(name: string): (g: Group)
    ensures g.name == name
  {
    Group(name, false, "", "", "", "", "", map[])
  }

  function BlankHost(name: string): (h: Host)
    ensures h.name == name
  {
    Host(name, "", "", [], "", "")
  }

  /** The name List derives from a matched file: the base name once ".yaml" is trimmed. */
  function ListedName(f: string): (n: string)
    ensures n != []
  {
    Base(TrimSuffix(f, ".yaml"))
  }

  /** What the filtering loop of List keeps of the matched files, in their order. */
  function ListNames(files: seq<string>): (names: seq<string>)
    ensures |names| <= |files|
    ensures forall i :: 0 <= i < |names| ==> names[i] != [] && names[i][0] != '.'
  {
    if files == [] then []
    else
      var n := ListedName(files[|files| - 1]);
      ListNames(files[..|files| - 1]) + (if n[0] == '.' then [] else [n])
  }

  /** The corrected listing: hidden files are recognised by their base name, before trimming. */
  function ListNamesCorrected(files: seq<string>): (names: seq<string>)
    ensures |names| <= |files|
  {
    if files == [] then []
    else
      var b := Base(files[|files| - 1]);
      ListNamesCorrected(files[..|files| - 1]) + (if b[0] == '.' then [] else [TrimSuffix(b, ".yaml")])
  }

  /** The glob pattern of `List(prefix)`: the YAML files of that sub-directory. */
  function ListPattern(root: string, prefix: string): string
  {
    JoinPath(JoinPath(root, prefix), "*.yaml")
  }

  /** The file `Get(key)` reads. */
  function KeyPath(root: string, key: string): string
  {
    JoinPath(root, key + ".yaml")
  }

  datatype DirStore = DirStore(path: string) {

    /** `List(prefix)`: the names of the YAML files under prefix, or the glob's error. */
    function Listing(t: Tree, prefix: string): Result<seq<string>, Error>
    {
      match Glob(t, ListPattern(path, prefix))
      case Failure(e) => Failure(e)
      case Success(files) => Success(ListNames(files))
    }

    /** `List(prefix)`. */
    method List(t: Tree, prefix: string) returns (r: Result<seq<string>, Error>)
      ensures r == Listing(t, prefix)
    {
      var g := Glob(t, ListPattern(path, prefix));
      if g.Failure? {
        return Failure(g.error);
      }
      var files := g.value;
      var names := [];
      for i := 0 to |files|
        invariant names == ListNames(files[..i])
      {
        PrefixGrows(files, i);
        var f2 := TrimSuffix(files[i], ".yaml");
        f2 := Base(f2);
        if f2[0] == '.' {
          continue;
        }
        names := names + [f2];
      }
      WholePrefix(files);
      return Success(names);
    }

    /** `Get(key)`: the contents of the key's YAML file. */
    function Get(t: Tree, key: string): (r: Result<string, Error>)
      ensures r == ReadFile(t, KeyPath(path, key))
    {
      ReadFile(t, JoinPath(path, key + ".yaml"))
    }

    /** The `load` closure on each name, in order: read, decode into a named blank record. */
    function Loaded<T>(t: Tree, dir: string, names: seq<string>, blank: string -> T,
                       decode: (T, string) -> Result<T, Error>): Result<seq<T>, Error>
    {
      if names == [] then Success([])
      else
        var xs :- Loaded(t, dir, names[..|names| - 1], blank, decode);
        var ba :- Get(t, JoinPath(dir, names[|names| - 1]));
        var x :- decode(blank(names[|names| - 1]), ba);
        Success(xs + [x])
    }

    /** A loop of `FromDir` over the listed names, appending each decoded record. */
    method LoadAll<T>(t: Tree, dir: string, names: seq<string>, blank: string -> T,
                      decode: (T, string) -> Result<T, Error>) returns (r: Result<seq<T>, Error>)
      ensures r == Loaded(t, dir, names, blank, decode)
    {
      var records := [];
      for i := 0 to |names|
        invariant Loaded(t, dir, names[..i], blank, decode) == Success(records)
      {
        PrefixGrows(names, i);
        var ba := Get(t, JoinPath(dir, names[i]));
        if ba.Failure? {
          r := Failure(ba.error);
          assert Loaded(t, dir, names[..i + 1], blank, decode) == r;
          LoadedFailureStays(t, dir, names, i + 1, blank, decode);
          return;
        }
        var o := decode(blank(names[i]), ba.value);
        if o.Failure? {
          r := Failure(o.error);
          assert Loaded(t, dir, names[..i + 1], blank, decode) == r;
          LoadedFailureStays(t, dir, names, i + 1, blank, decode);
          return;
        }
        records := records + [o.value];
      }
      WholePrefix(names);
      return Success(records);
    }

    /** The `loadTemplates` closure: each listed file becomes a template named after it. */
    function LoadedTemplates(t: Tree, dir: string, names: seq<string>): Result<seq<Template>, Error>
    {
      if names == [] then Success([])
      else
        var ts :- LoadedTemplates(t, dir, names[..|names| - 1]);
        var ba :- Get(t, JoinPath(dir, names[|names| - 1]));
        Success(ts + [Template(names[|names| - 1], ba)])
    }

    function Templates(t: Tree, dir: string): Result<seq<Template>, Error>
    {
      var names :- Listing(t, dir);
      LoadedTemplates(t, dir, names)
    }

    /** `loadTemplates(dir, ...)`. */
    method LoadTemplates(t: Tree, dir: string) returns (r: Result<seq<Template>, Error>)
      ensures r == Templates(t, dir)
    {
      var names := List(t, dir);
      if names.Failure? {
        return Failure(names.error);
      }
      var templates := [];
      for i := 0 to |names.value|
        invariant LoadedTemplates(t, dir, names.value[..i]) == Success(templates)
      {
        PrefixGrows(names.value, i);
        var ba := Get(t, JoinPath(dir, names.value[i]));
        if ba.Failure? {
          r := Failure(ba.error);
          assert LoadedTemplates(t, dir, names.value[..i + 1]) == r;
          TemplatesFailureStays(t, dir, names.value, i + 1);
          return;
        }
        templates := templates + [Template(names.value[i], ba.value)];
      }
      WholePrefix(names.value);
      return Success(templates);
    }

    /** Once a load fails, loading more names reports the same error. */
    lemma {:induction false} LoadedFailureStays<T>(t: Tree, dir: string, names: seq<string>, k: nat,
                                                     blank: string -> T, decode: (T, string) -> Result<T, Error>)
      requires k <= |names| && Loaded(t, dir, names[..k], blank, decode).Failure?
      ensures Loaded(t, dir, names, blank, decode) == Loaded(t, dir, names[..k], blank, decode)
      decreases |names| - k
    {
      if k < |names| {
        PrefixGrows(names, k);
        LoadedFailureStays(t, dir, names, k + 1, blank, decode);
      } else {
        WholePrefix(names);
      }
    }

    lemma {:induction false} TemplatesFailureStays(t: Tree, dir: string, names: seq<string>, k: nat)
      requires k <= |names| && LoadedTemplates(t, dir, names[..k]).Failure?
      ensures LoadedTemplates(t, dir, names) == LoadedTemplates(t, dir, names[..k])
      decreases |names| - k
    {
      if k < |names| {
        PrefixGrows(names, k);
        TemplatesFailureStays(t, dir, names, k + 1);
      } else {
        WholePrefix(names);
      }
    }
  }

  /** One section of the tree: list a sub-directory and load a record per name. */
  function Section<T>(store: DirStore, t: Tree, dir: string, blank: string -> T,
                      decode: (T, string) -> Result<T, Error>): Result<seq<T>, Error>
  {
    var names :- store.Listing(t, dir);
    store.Loaded(t, dir, names, blank, decode)
  }

  /** The listed sections of `FromDir(root)`, before the two optional files. */
  function Sections(root: string, t: Tree, yaml: Yaml): Result<Config, Error>
  {
    var store := DirStore(root);
    var clusters :- Section(store, t, "clusters", BlankCluster, yaml.cluster);
    var groups :- Section(store, t, "groups", BlankGroup, yaml.group);
    var hosts :- Section(store, t, "hosts", BlankHost, yaml.host);
    var configs :- store.Templates(t, "configs");
    var staticPods :- store.Templates(t, "static-pods");
    Success(Config(hosts, groups, clusters, configs, staticPods, "", []))
  }

  /** ssl-config.json, read as text; empty when it does not exist. */
  function SslConfig(root: string, t: Tree): (r: Result<string, Error>)
    ensures var f := ReadFile(t, JoinPath(root, "ssl-config.json"));
      && (f.Success? ==> r == f)
      && (f.Failure? && f.error.NotExist? ==> r == Success(""))
      && (f.Failure? && !f.error.NotExist? ==> r == Failure(f.error))
  {
    match ReadFile(t, JoinPath(root, "ssl-config.json"))
    case Success(ba) => Success(ba)
    case Failure(e) => if e.NotExist? then Success("") else Failure(e)
  }

  /** cert-requests.yaml, decoded; no requests when it does not exist. */
  function CertRequests(root: string, t: Tree, yaml: Yaml): (r: Result<seq<CertRequest>, Error>)
    ensures var f := ReadFile(t, JoinPath(root, "cert-requests.yaml"));
      && (f.Success? ==> r == yaml.certRequests(f.value))
      && (f.Failure? && f.error.NotExist? ==> r == Success([]))
      && (f.Failure? && !f.error.NotExist? ==> r == Failure(f.error))
  {
    match ReadFile(t, JoinPath(root, "cert-requests.yaml"))
    case Success(ba) => yaml.certRequests(ba)
    case Failure(e) => if e.NotExist? then Success([]) else Failure(e)
  }

  /** What `FromDir(root)` returns; the first error aborts. */
  function FromDirSpec(root: string, t: Tree, yaml: Yaml): Result<Config, Error>
  {
    var c :- Sections(root, t, yaml);
    var ssl :- SslConfig(root, t);
    var reqs :- CertRequests(root, t, yaml);
    Success(c.(sslConfig := ssl, certRequests := reqs))
  }

  /** `FromDir(root)`. */
  method FromDir(root: string, t: Tree, yaml: Yaml) returns (r: Result<Config, Error>)
    ensures r == FromDirSpec(root, t, yaml)
  {
    var store := DirStore(root);
    var names := store.List(t, "clusters");
    if names.Failure? {
      return Failure(names.error);
    }
    var clusters := store.LoadAll(t, "clusters", names.value, BlankCluster, yaml.cluster);
    if clusters.Failure? {
      return Failure(clusters.error);
    }
    names := store.List(t, "groups");
    if names.Failure? {
      return Failure(names.error);
    }
    var groups := store.LoadAll(t, "groups", names.value, BlankGroup, yaml.group);
    if groups.Failure? {
      return Failure(groups.error);
    }
    names := store.List(t, "hosts");
    if names.Failure? {
      return Failure(names.error);
    }
    var hosts := store.LoadAll(t, "hosts", names.value, BlankHost, yaml.host);
    if hosts.Failure? {
      return Failure(hosts.error);
    }
    var configs := store.LoadTemplates(t, "configs");
    if configs.Failure? {
      return Failure(configs.error);
    }
    var staticPods := store.LoadTemplates(t, "static-pods");
    if staticPods.Failure? {
      return Failure(staticPods.error);
    }
    var ssl := "";
    var sslFile := ReadFile(t, JoinPath(root, "ssl-config.json"));
    if sslFile.Success? {
      ssl := sslFile.value;
    } else if !sslFile.error.NotExist? {
      return Failure(sslFile.error);
    }
    var reqs := [];
    var reqsFile := ReadFile(t, JoinPath(root, "cert-requests.yaml"));
    if reqsFile.Success? {
      var decoded := yaml.certRequests(reqsFile.value);
      if decoded.Failure? {
        return Failure(decoded.error);
      }
      reqs := decoded.value;
    } else if !reqsFile.error.NotExist? {
      return Failure(reqsFile.error);
    }
    return Success(Config(hosts.value, groups.value, clusters.value, configs.value,
                          staticPods.value, ssl, reqs));
  }

  // ---------------------------------------------------------------------------------------
  // Properties of the listing

  /** Listing a concatenation lists each part in turn: the listing keeps the glob's order. */
  lemma {:induction false} ListNamesAppend(a: seq<string>, b: seq<string>)
    ensures ListNames(a + b) == ListNames(a) + ListNames(b)
    decreases |b|
  {
    if b == [] {
      AppendEmpty(a);
    } else {
      ListNamesAppend(a, b[..|b| - 1]);
      AppendInit(a, b);
    }
  }

  /** Each listed name is the listed name of one matched file, and no two come from one file. */
  lemma {:induction false} ListNamesFrom(files: seq<string>)
    ensures forall n :: n in ListNames(files) ==> exists j :: 0 <= j < |files| && n == ListedName(files[j])
    decreases |files|
  {
    if files != [] {
      var init := files[..|files| - 1];
      ListNamesFrom(init);
      forall n | n in ListNames(files)
        ensures exists j :: 0 <= j < |files| && n == ListedName(files[j])
      {
        if n in ListNames(init) {
          var j :| 0 <= j < |init| && n == ListedName(init[j]);
          assert files[j] == init[j];
        } else {
          assert n == ListedName(files[|files| - 1]);
        }
      }
    }
  }

  /** A single file is listed under its name exactly when that name is not hidden. */
  lemma ListNamesOne(f: string)
    ensures ListNames([f]) == if ListedName(f)[0] == '.' then [] else [ListedName(f)]
  {
    assert [f][..0] == [];
  }

  /**
   * The name listed for a visible file of a sub-directory reads that file back: `Get` of
   * dir/name opens the file the glob matched.
   */
  lemma ListThenGet(root: string, dir: string, name: string)
    requires root != [] && dir != [] && name != [] && '/' !in name && name[0] != '.'
    ensures var f := JoinPath(JoinPath(root, dir), name + ".yaml");
      && ListNames([f]) == [name]
      && KeyPath(root, JoinPath(dir, name)) == f
  {
    var d := root + "/" + dir;
    var g := d + "/" + name;
    assert JoinPath(JoinPath(root, dir), name + ".yaml") == g + ".yaml";
    TrimSuffixConcat(g, ".yaml");
    BaseOfJoin(d, name);
    ListNamesOne(g + ".yaml");
    KeyPathOfJoin(root, dir, name);
  }

  lemma KeyPathOfJoin(root: string, dir: string, name: string)
    requires root != [] && dir != [] && name != []
    ensures KeyPath(root, JoinPath(dir, name)) == root + "/" + dir + "/" + name + ".yaml"
  {
    var p := root + "/";
    Assoc(p, dir, "/");
    Assoc(p, dir + "/", name);
    Assoc(p, dir + "/" + name, ".yaml");
  }

  /**
   * As written, a hidden file named just ".yaml" is not skipped: trimming first leaves the
   * directory path, whose base name is listed.
   */
  lemma HiddenYamlListed(parent: string, dir: string)
    requires dir != [] && '/' !in dir && dir[0] != '.'
    ensures ListNames([parent + "/" + dir + "/" + ".yaml"]) == [dir]
  {
    var x := parent + "/" + dir;
    var g := x + "/";
    TrimSuffixConcat(g, ".yaml");
    AppendInit(x, "/");
    AppendEmpty(x);
    AppendInit(parent + "/", dir);
    assert TrimTrailingSlashes(g) == x;
    BaseOfJoin(parent, dir);
    ListNamesOne(g + ".yaml");
  }

  /** With the corrected test, a hidden file is never listed. */
  lemma CorrectedSkipsHidden(f: string)
    requires Base(f)[0] == '.'
    ensures ListNamesCorrected([f]) == []
  {
    assert [f][..0] == [];
  }

  /** The two listings agree when no matched file is named just ".yaml". */
  lemma {:induction false} CorrectedAgrees(files: seq<string>)
    requires forall i :: 0 <= i < |files| ==> Base(files[i]) != ".yaml" && HasSuffix(files[i], ".yaml")
    ensures ListNamesCorrected(files) == ListNames(files)
    decreases |files|
  {
    if files != [] {
      var f := files[|files| - 1];
      CorrectedAgrees(files[..|files| - 1]);
      BaseTrimYaml(f);
    }
  }

  /**
   * For a file f ending in ".yaml" other than a bare ".yaml", trimming and taking the base
   * name commute, and the base name is hidden exactly when the listed name is.
   */
  lemma BaseTrimYaml(f: string)
    requires HasSuffix(f, ".yaml") && Base(f) != ".yaml"
    ensures TrimSuffix(Base(f), ".yaml") == ListedName(f)
    ensures Base(f)[0] == ListedName(f)[0]
  {
    var g := TrimSuffix(f, ".yaml");
    AppendInit(g, ".yaml");
    assert TrimTrailingSlashes(f) == f;
    YamlHasNoSlash();
    AfterLastSlashSuffix(g, ".yaml");
    var a := AfterLastSlash(g);
    assert Base(f) == a + ".yaml";
    assert a != [] by {
      AppendEmpty(".yaml");
    }
    assert a[|a| - 1] == g[|g| - 1];
    assert TrimTrailingSlashes(g) == g;
    TrimSuffixConcat(a, ".yaml");
    assert (a + ".yaml")[0] == a[0];
  }

  // ---------------------------------------------------------------------------------------
  // Properties of the loader

  /**
   * A successful load has one record per listed name, in listing order, each decoded from
   * that name's file into a blank record carrying the name.
   */
  lemma {:induction false} LoadedInOrder<T>(store: DirStore, t: Tree, dir: string, names: seq<string>,
                                             blank: string -> T, decode: (T, string) -> Result<T, Error>)
    requires store.Loaded(t, dir, names, blank, decode).Success?
    ensures var xs := store.Loaded(t, dir, names, blank, decode).value;
      && |xs| == |names|
      && forall i :: 0 <= i < |names| ==>
           && store.Get(t, JoinPath(dir, names[i])).Success?
           && decode(blank(names[i]), store.Get(t, JoinPath(dir, names[i])).value) == Success(xs[i])
    decreases |names|
  {
    if names != [] {
      var init := names[..|names| - 1];
      LoadedInOrder(store, t, dir, init, blank, decode);
      forall i | 0 <= i < |init| ensures names[i] == init[i] {
      }
    }
  }

  /** A load fails exactly when some name's file cannot be read or decoded. */
  lemma {:induction false} LoadedFails<T>(store: DirStore, t: Tree, dir: string, names: seq<string>,
                                           blank: string -> T, decode: (T, string) -> Result<T, Error>)
    ensures store.Loaded(t, dir, names, blank, decode).Failure? <==>
      exists i :: 0 <= i < |names| && !Loads(store, t, dir, names[i], blank, decode)
    decreases |names|
  {
    if names != [] {
      var init := names[..|names| - 1];
      LoadedFails(store, t, dir, init, blank, decode);
      if exists i :: 0 <= i < |init| && !Loads(store, t, dir, init[i], blank, decode) {
        var i :| 0 <= i < |init| && !Loads(store, t, dir, init[i], blank, decode);
        assert names[i] == init[i];
      }
      if exists i :: 0 <= i < |names| && !Loads(store, t, dir, names[i], blank, decode) {
        var i :| 0 <= i < |names| && !Loads(store, t, dir, names[i], blank, decode);
        if i < |init| {
          assert init[i] == names[i];
        }
      }
    }
  }

  /** The file of name can be read and decoded. */
  predicate Loads<T>(store: DirStore, t: Tree, dir: string, name: string,
                     blank: string -> T, decode: (T, string) -> Result<T, Error>)
  {
    var ba := store.Get(t, JoinPath(dir, name));
    ba.Success? && decode(blank(name), ba.value).Success?
  }

  /** A successful template load has one template per name: the name and the raw file contents. */
  lemma {:induction false} TemplatesInOrder(store: DirStore, t: Tree, dir: string, names: seq<string>)
    requires store.LoadedTemplates(t, dir, names).Success?
    ensures var ts := store.LoadedTemplates(t, dir, names).value;
      && |ts| == |names|
      && forall i :: 0 <= i < |names| ==>
           && store.Get(t, JoinPath(dir, names[i])).Success?
           && ts[i] == Template(names[i], store.Get(t, JoinPath(dir, names[i])).value)
    decreases |names|
  {
    if names != [] {
      var init := names[..|names| - 1];
      TemplatesInOrder(store, t, dir, init);
      forall i | 0 <= i < |init| ensures names[i] == init[i] {
      }
    }
  }

  /**
   * The optional files: a missing ssl-config.json or cert-requests.yaml leaves its field
   * empty, a present one is taken (decoded, for the requests), and any other error reading
   * either, or a decoding error, makes the whole load fail.
   */
  lemma FromDirOptionalFiles(root: string, t: Tree, yaml: Yaml)
    ensures var r := FromDirSpec(root, t, yaml);
      var ssl := ReadFile(t, JoinPath(root, "ssl-config.json"));
      var reqs := ReadFile(t, JoinPath(root, "cert-requests.yaml"));
      && (r.Success? ==> r.value.sslConfig == (if ssl.Success? then ssl.value else ""))
      && (r.Success? && reqs.Failure? ==> r.value.certRequests == [])
      && (r.Success? && reqs.Success? ==> yaml.certRequests(reqs.value) == Success(r.value.certRequests))
      && (ssl.Failure? && !ssl.error.NotExist? ==> r.Failure?)
      && (reqs.Failure? && !reqs.error.NotExist? ==> r.Failure?)
      && (reqs.Success? && yaml.certRequests(reqs.value).Failure? ==> r.Failure?)
  {
  }

  /** A failing listing of clusters aborts the load with the listing's error. */
  lemma FromDirListingFails(root: string, t: Tree, yaml: Yaml)
    requires Glob(t, ListPattern(root, "clusters")).Failure?
    ensures FromDirSpec(root, t, yaml) == Failure(Glob(t, ListPattern(root, "clusters")).error)
  {
  }

  /**
   * A successful load holds one cluster per listed cluster file, in listing order, each
   * decoded into a cluster named after its file; likewise for groups, hosts and templates.
   */
  lemma FromDirContents(root: string, t: Tree, yaml: Yaml)
    requires FromDirSpec(root, t, yaml).Success?
    ensures var c := FromDirSpec(root, t, yaml).value;
      var store := DirStore(root);
      && Section(store, t, "clusters", BlankCluster, yaml.cluster) == Success(c.clusters)
      && Section(store, t, "groups", BlankGroup, yaml.group) == Success(c.groups)
      && Section(store, t, "hosts", BlankHost, yaml.host) == Success(c.hosts)
      && store.Templates(t, "configs") == Success(c.configs)
      && store.Templates(t, "static-pods") == Success(c.staticPods)
  {
    var sections := Sections(root, t, yaml);
    assert sections.Success?;
    SectionsContents(root, t, yaml);
  }

  lemma SectionsContents(root: string, t: Tree, yaml: Yaml)
    requires Sections(root, t, yaml).Success?
    ensures var c := Sections(root, t, yaml).value;
      var store := DirStore(root);
      && Section(store, t, "clusters", BlankCluster, yaml.cluster) == Success(c.clusters)
      && Section(store, t, "groups", BlankGroup, yaml.group) == Success(c.groups)
      && Section(store, t, "hosts", BlankHost, yaml.host) == Success(c.hosts)
      && store.Templates(t, "configs") == Success(c.configs)
      && store.Templates(t, "static-pods") == Success(c.staticPods)
  {
    var store := DirStore(root);
    var clusters := Section(store, t, "clusters", BlankCluster, yaml.cluster);
    var groups := Section(store, t, "groups", BlankGroup, yaml.group);
    var hosts := Section(store, t, "hosts", BlankHost, yaml.host);
    var configs := store.Templates(t, "configs");
    var staticPods := store.Templates(t, "static-pods");
    assert clusters.Success? && groups.Success? && hosts.Success? && configs.Success? && staticPods.Success?;
    assert Sections(root, t, yaml).value ==
      Config(hosts.value, groups.value, clusters.value, configs.value, staticPods.value, "", []);
  }
}
