/**
 * The registry of pipeline components: a name-to-class table filled once at
 * import time and read when a pipeline description is parsed.
 */
module ComponentsRegistry {
  import opened Wrappers

  /** A class handed to the registry; `isComponent` says whether it derives from the component base class. */
  datatype ComponentClass = ComponentClass(className: string, isComponent: bool)

  class ComponentsRegister {
    /** The registered classes by name. */
    var components: map<string, ComponentClass>

    constructor ()
      ensures components == map[]
    {
      components := map[];
    }

    /**
     * Registers `component` under `name`. Fails, leaving the table as it
     * was, when the class is not a component (checked first) or when the
     * name is taken.
     */
    method RegisterComponent(name: string, component: ComponentClass) returns (r: Result<(), string>)
      modifies this
      ensures r.Err? <==> !component.isComponent || name in old(components)
      ensures r.Err? ==> components == old(components)
      ensures r.Ok? ==> components == old(components)[name := component]
      ensures r.Ok? ==> GetComponent(name) == Some(component)
      ensures forall other :: other != name ==> GetComponent(other) == old(GetComponent(other))
    {
      if !component.isComponent {
        return Err("AssertionError: component is not a subclass of AbstractComponent");
      }
      if name in components {
        return Err("AssertionError: component name is already registered");
      }
      components := components[name := component];
      r := Ok(());
    }

    /** The class registered under `name`, if any. */
    function GetComponent(name: string): (r: Option<ComponentClass>)
      reads this
      ensures r.Some? <==> name in components
      ensures r.Some? ==> r.value == components[name]
    {
      if name in components then Some(components[name]) else None
    }

    /** The whole table. */
    function GetAllComponents(): (r: map<string, ComponentClass>)
      reads this
      ensures forall name :: name in r <==> GetComponent(name).Some?
      ensures forall name :: name in r ==> GetComponent(name) == Some(r[name])
    {
      components
    }
  }

  /** Every class in a registry built by registration is a component. */
  ghost predicate OnlyComponents(components: map<string, ComponentClass>) {
    forall name :: name in components ==> components[name].isComponent
  }

  /** Registration never lets a non-component into the table. */
  lemma RegisterKeepsOnlyComponents(components: map<string, ComponentClass>, name: string, component: ComponentClass)
    requires OnlyComponents(components) && component.isComponent
    ensures OnlyComponents(components[name := component])
  {
  }
}
