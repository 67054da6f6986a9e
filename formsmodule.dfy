/**
 * The component registry of src/application/FormsModule.ts: the
 * singleton module, and the path-to-class and class-to-path maps it fills
 * (kept in src/application/Components.ts, which is not part of this model).
 */
module FormsModule {
  import opened Wrappers
  import opened Text

  /** A component class: its identity and its name. */
  datatype ComponentClass = ComponentClass(id: nat, name: string)

  /** The argument of `getFormPath`: a class or a class name. */
  datatype ClassRef = ClassValue(clazz: ComponentClass) | ClassName(name: string)

  /** `classmap.get(path.toLowerCase())`. */
  function FindComponent(classmap: map<string, ComponentClass>, path: string): (r: Option<ComponentClass>)
    ensures r.Some? <==> Lower(path) in classmap
    ensures r.Some? ==> r.value == classmap[Lower(path)]
  {
    if Lower(path) in classmap then Some(classmap[Lower(path)]) else None
  }

  /** `classurl.get(name.toLowerCase())` for a class or a class name; null for null. */
  function FindFormPath(classurl: map<string, string>, clazz: Option<ClassRef>): (r: Option<string>)
    ensures clazz.None? ==> r.None?
    ensures clazz.Some? ==> (r.Some? <==> Lower(NameOf(clazz.value)) in classurl)
    ensures r.Some? ==> r.value == classurl[Lower(NameOf(clazz.value))]
  {
    match clazz
    case None => None
    case Some(c) =>
      var key := Lower(NameOf(c));
      if key in classurl then Some(classurl[key]) else None
  }

  function NameOf(c: ClassRef): string {
    match c
    case ClassValue(k) => k.name
    case ClassName(n) => n
  }

  /** The path a class is mapped under: the given path or the class name, lower-cased. */
  function PathOf(clazz: ComponentClass, path: Option<string>): (r: string)
    ensures IsLower(r)
  {
    LowerIdempotent(path.GetOr(clazz.name));
    Lower(path.GetOr(clazz.name))
  }

  /** The registry maps. */
  class Components {
    var classmap: map<string, ComponentClass>
    var classurl: map<string, string>

    constructor ()
      ensures classmap == map[] && classurl == map[]
    {
      classmap := map[];
      classurl := map[];
    }
  }

  /** The static state: the singleton and the registry. */
  class Application {
    var instance: Module?
    const components: Components

    constructor ()
      ensures instance == null && fresh(components)
      ensures components.classmap == map[] && components.classurl == map[]
    {
      instance := null;
      components := new Components();
    }

    /** `FormsModule.get`: the singleton, created on first use. */
    method Get() returns (m: Module)
      modifies this`instance
      ensures instance == m
      ensures old(instance) != null ==> m == old(instance)
      ensures old(instance) == null ==> fresh(m) && m.app == this
    {
      if instance == null {
        m := new Module(this);
      } else {
        m := instance;
      }
    }
  }

  /** An instance of FormsModule; constructing one makes it the singleton. */
  class Module {
    const app: Application

    constructor (app: Application)
      modifies app`instance
      ensures this.app == app && app.instance == this
    {
      this.app := app;
      new;
      app.instance := this;
    }

    /**
     * `mapComponent`: registers the class under its lower-cased path (the
     * class name when no path is given), and the path under the class's
     * own name, not lower-cased. A null class changes nothing.
     */
    method MapComponent(clazz: Option<ComponentClass>, path: Option<string>)
      modifies app.components
      ensures clazz.None? ==> app.components.classmap == old(app.components.classmap) &&
                              app.components.classurl == old(app.components.classurl)
      ensures clazz.Some? ==>
                app.components.classmap == old(app.components.classmap)[PathOf(clazz.value, path) := clazz.value] &&
                app.components.classurl == old(app.components.classurl)[clazz.value.name := PathOf(clazz.value, path)]
    {
      if clazz.None? {
        return;
      }
      var c := clazz.value;
      var p := if path.None? then c.name else path.value;
      p := Lower(p);
      app.components.classmap := app.components.classmap[p := c];
      app.components.classurl := app.components.classurl[c.name := p];
    }

    /** `getComponent`: the class mapped under the path, compared without case. */
    function GetComponent(path: string): (r: Option<ComponentClass>)
      reads this, app.components
      ensures r == FindComponent(app.components.classmap, path)
    {
      FindComponent(app.components.classmap, path)
    }
  }

  /** After mapping a class, any case variant of its path finds it. */
  lemma MappedComponentFound(classmap: map<string, ComponentClass>, clazz: ComponentClass, path: Option<string>, query: string)
    requires Lower(query) == Lower(path.GetOr(clazz.name))
    ensures FindComponent(classmap[PathOf(clazz, path) := clazz], query) == Some(clazz)
  {
  }

  /**
   * After mapping a class, `getFormPath` finds its path when the class
   * name is all lower case, and misses it when the name has a capital and
   * nothing else is stored under the lowered name: the path is stored under
   * the raw name but looked up under the lowered one.
   */
  lemma FormPathNeedsLowerCaseName(classurl: map<string, string>, clazz: ComponentClass, path: Option<string>)
    ensures IsLower(clazz.name) ==>
              FindFormPath(classurl[clazz.name := PathOf(clazz, path)], Some(ClassValue(clazz))) == Some(PathOf(clazz, path))
    ensures !IsLower(clazz.name) && Lower(clazz.name) !in classurl ==>
              FindFormPath(classurl[clazz.name := PathOf(clazz, path)], Some(ClassValue(clazz))).None?
  {
    LowerFixpoint(clazz.name);
  }
}
