/** Choosing the named configuration object a picker copies its settings from
    when it is initialised. */
module Config {
  import opened Optional

  /** A registered configuration; only its name takes part in the choice. */
  datatype PickerConfig = PickerConfig(name: Option<string>)

  /** The configuration the picker copies: one of the registered ones, or a
      freshly constructed default when none is registered. */
  datatype ConfigChoice = Registered(index: nat) | BuiltInDefault

  /** `string.IsNullOrEmpty` */
  predicate IsNullOrEmpty(s: Option<string>) {
    s == None || s == Some("")
  }

  /** `c.Name == Config`: C# string equality, where a null name equals only null. */
  predicate NameIs(c: PickerConfig, requested: Option<string>) {
    c.name == requested
  }

  /** Index of the first configuration named `requested`, counting from `from`. */
  function FirstNamed(configs: seq<PickerConfig>, requested: Option<string>, from: nat): (r: Option<nat>)
    requires from <= |configs|
    ensures r.Some? ==> from <= r.value < |configs| && NameIs(configs[r.value], requested)
    ensures r.Some? ==> forall j :: from <= j < r.value ==> !NameIs(configs[j], requested)
    ensures r.None? ==> forall j :: from <= j < |configs| ==> !NameIs(configs[j], requested)
    decreases |configs| - from
  {
    if from == |configs| then None
    else if NameIs(configs[from], requested) then Some(from)
    else FirstNamed(configs, requested, from + 1)
  }

  /** The first configuration named `requested` when that name is non-empty and
      registered; otherwise the first registered configuration; otherwise the
      built-in default. */
  function SelectConfig(configs: seq<PickerConfig>, requested: Option<string>): (r: ConfigChoice)
    ensures r.Registered? ==> r.index < |configs|
    ensures r == BuiltInDefault <==> |configs| == 0
    ensures r.Registered? && r.index > 0 ==>
              !IsNullOrEmpty(requested) && NameIs(configs[r.index], requested)
    ensures !IsNullOrEmpty(requested) ==>
              forall i :: 0 <= i < |configs| && NameIs(configs[i], requested) ==>
                r.Registered? && r.index <= i && NameIs(configs[r.index], requested)
  {
    var first := if |configs| > 0 then Registered(0) else BuiltInDefault;
    if IsNullOrEmpty(requested) then first
    else
      match FirstNamed(configs, requested, 0)
      case Some(i) => Registered(i)
      case None => first
  }
}
