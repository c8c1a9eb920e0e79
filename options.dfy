/**
 The options handed to the editor: the factory's argument with its
 `container` taken out, spread over the editor defaults.
 */
module EditorOptions {

  /** A JavaScript value as it can appear in an options object. Numbers are
      integers here (every default is one); `Host` stands for an object of the
      page, such as the container element, that the merge never looks into. */
  datatype Value =
    | Bool(b: bool)
    | Number(n: int)
    | Str(s: string)
    | Object(fields: map<string, Value>)
    | Host(id: nat)

  /** An options object, keyed by property name. */
  type Options = map<string, Value>

  const ContainerKey := "container"

  const EditorDefaults: Options := map[
    "value" := Str(""),
    "language" := Str("typescript"),
    "theme" := Str("vs-dark"),
    "formatOnType" := Bool(false),
    "fontSize" := Number(16),
    "tabSize" := Number(2),
    "lineNumbersMinChars" := Number(3),
    "minimap" := Object(map["enabled" := Bool(true)]),
    "scrollbar" := Object(map["useShadows" := Bool(false)]),
    "mouseWheelZoom" := Bool(true)
  ]

  /** `const { container, ...rest } = options`: every property but `container`. */
  function WithoutContainer(options: Options): (rest: Options)
    ensures rest.Keys == options.Keys - {ContainerKey}
    ensures forall k :: k in rest ==> rest[k] == options[k]
  {
    options - {ContainerKey}
  }

  /** `{ ...base, ...over }`: a shallow merge in which `over` wins. A value of
      `over` replaces the value of `base` whole, nested objects included. */
  function Spread(base: Options, over: Options): (merged: Options)
    ensures merged.Keys == base.Keys + over.Keys
    ensures forall k :: k in over ==> merged[k] == over[k]
    ensures forall k :: k in base && k !in over ==> merged[k] == base[k]
  {
    base + over
  }

  /** The options object passed to the editor for the factory's `options`. */
  function CreateOptions(options: Options): (merged: Options)
    ensures merged.Keys == EditorDefaults.Keys + (options.Keys - {ContainerKey})
    ensures ContainerKey !in merged
    ensures forall k :: k in options && k != ContainerKey ==> merged[k] == options[k]
    ensures forall k :: k in EditorDefaults && k !in options ==> merged[k] == EditorDefaults[k]
  {
    Spread(EditorDefaults, WithoutContainer(options))
  }

  /** A caller's nested object replaces the default one instead of being
      merged into it: overriding `minimap` with an object that lacks
      `enabled` drops the default `enabled: true`. */
  lemma NestedObjectReplacedWhole(options: Options, fields: map<string, Value>)
    requires "minimap" in options && options["minimap"] == Object(fields)
    requires "enabled" !in fields
    ensures "enabled" in EditorDefaults["minimap"].fields
    ensures CreateOptions(options)["minimap"].fields == fields
    ensures "enabled" !in CreateOptions(options)["minimap"].fields
  {
  }
}
