/** How a container's executables, configuration and data directories are bound
    to the host: three lists of binding records that only grow. */
module Bindings {
  import opened Errors

  /** How a binding is materialised on the host. */
  datatype BindingType = Symlink | Wrapper | Copy

  /** `BindingType::default`: a wrapper script. */
  function DefaultBindingType(): (t: BindingType)
    ensures t == Wrapper
  {
    Wrapper
  }

  datatype ExecutableBinding = ExecutableBinding(
    source: string,
    target: string,
    bindingType: BindingType,
    displayName: Option<string>)

  datatype ConfigBinding = ConfigBinding(
    source: string,
    target: string,
    bindingType: BindingType,
    backupExisting: bool)

  datatype DataBinding = DataBinding(
    source: string,
    target: string,
    bindingType: BindingType,
    backupExisting: bool)

  /** The binding lists of one container. */
  class BindingsConfig {
    var executables: seq<ExecutableBinding>
    var configs: seq<ConfigBinding>
    var data: seq<DataBinding>

    /** The number of bindings of all three kinds. */
    function Count(): nat
      reads this
    {
      |executables| + |configs| + |data|
    }

    /** `is_empty`: no binding of any kind. */
    predicate IsEmpty()
      reads this
    {
      |executables| == 0 && |configs| == 0 && |data| == 0
    }

    /** Empty exactly when there are no bindings to count. */
    lemma IsEmptyIffNoBindings()
      ensures IsEmpty() <==> Count() == 0
    {
    }

    /** `BindingsConfig::new`: all three lists empty. */
    constructor ()
      ensures executables == [] && configs == [] && data == []
      ensures IsEmpty()
    {
      executables := [];
      configs := [];
      data := [];
    }

    /** `add_executable`: appends to the executables, the other lists unchanged. */
    method AddExecutable(binding: ExecutableBinding)
      modifies this
      ensures executables == old(executables) + [binding]
      ensures configs == old(configs) && data == old(data)
      ensures Count() == old(Count()) + 1 && !IsEmpty()
    {
      executables := executables + [binding];
    }

    /** `add_config`: appends to the configs, the other lists unchanged. */
    method AddConfig(binding: ConfigBinding)
      modifies this
      ensures configs == old(configs) + [binding]
      ensures executables == old(executables) && data == old(data)
      ensures Count() == old(Count()) + 1 && !IsEmpty()
    {
      configs := configs + [binding];
    }

    /** `add_data`: appends to the data bindings, the other lists unchanged. */
    method AddData(binding: DataBinding)
      modifies this
      ensures data == old(data) + [binding]
      ensures executables == old(executables) && configs == old(configs)
      ensures Count() == old(Count()) + 1 && !IsEmpty()
    {
      data := data + [binding];
    }
  }
}
