/**
 * `ParseKernelAnnotations` (pkg/kernel/list.go): the kernel description a
 * package carries in its `kernel` annotation. Annotations are decoded JSON,
 * so their values are dynamic; `Value` stands for Go's `interface{}`.
 */
module KernelAnnotations {
  import opened Wrappers

  /** A decoded JSON value: a string, a boolean, an object, or anything else (numbers, arrays, null). */
  datatype Value = Str(s: string) | Bool(b: bool) | Dict(fields: map<string, Value>) | Other

  /** `specs.Stone`, with the fields the kernel commands read. */
  datatype Stone = Stone(name: string, category: string, version: string, annotations: map<string, Value>)

  /** `specs.KernelAnnotation`; `kind` is the `Type` field. */
  datatype KernelAnnotation = KernelAnnotation(eol: string, lts: bool, released: string, suffix: string, kind: string)

  datatype ParseError =
    | NoKernelKey(category: string, name: string)
    | NotAMap(category: string, name: string)

  /** A string field: copied when present and a string, `""` otherwise. */
  function StrField(fields: map<string, Value>, key: string): (r: string)
    ensures key in fields && fields[key].Str? ==> r == fields[key].s
    ensures !(key in fields && fields[key].Str?) ==> r == ""
  {
    if key in fields && fields[key].Str? then fields[key].s else ""
  }

  /** `v` is the string stored under `key`, or `""` when `key` is missing or holds another type. */
  predicate CopiedOrEmpty(fields: map<string, Value>, key: string, v: string) {
    if key in fields && fields[key].Str? then fields[key] == Str(v) else v == ""
  }

  /** A boolean field: copied when present and a boolean, `false` otherwise. */
  function BoolField(fields: map<string, Value>, key: string): (r: bool)
    ensures r <==> key in fields && fields[key] == Bool(true)
  {
    key in fields && fields[key].Bool? && fields[key].b
  }

  /**
   * `ParseKernelAnnotations`: a stone without a `kernel` annotation, or
   * whose `kernel` annotation is not an object, is an error. Otherwise
   * the five known fields are read, each left empty or false when missing
   * or of another type, and everything else is ignored.
   */
  function ParseKernelAnnotations(s: Stone): (r: Result<KernelAnnotation, ParseError>)
    ensures "kernel" !in s.annotations <==> r == Err(NoKernelKey(s.category, s.name))
    ensures "kernel" in s.annotations && !s.annotations["kernel"].Dict? <==> r == Err(NotAMap(s.category, s.name))
    ensures r.Ok? <==> "kernel" in s.annotations && s.annotations["kernel"].Dict?
    ensures r.Ok? ==>
      var fields := s.annotations["kernel"].fields;
      r.value.lts == ("lts" in fields && fields["lts"] == Bool(true)) &&
      CopiedOrEmpty(fields, "suffix", r.value.suffix) && CopiedOrEmpty(fields, "type", r.value.kind) &&
      CopiedOrEmpty(fields, "eol", r.value.eol) && CopiedOrEmpty(fields, "released", r.value.released)
  {
    if "kernel" !in s.annotations then Err(NoKernelKey(s.category, s.name))
    else
      match s.annotations["kernel"]
      case Dict(fields) =>
        Ok(KernelAnnotation(StrField(fields, "eol"), BoolField(fields, "lts"), StrField(fields, "released"), StrField(fields, "suffix"), StrField(fields, "type")))
      case _ => Err(NotAMap(s.category, s.name))
  }

  /** The annotation object that describes `a`. */
  function Encode(a: KernelAnnotation): Value {
    Dict(map["eol" := Str(a.eol), "lts" := Bool(a.lts), "released" := Str(a.released), "suffix" := Str(a.suffix), "type" := Str(a.kind)])
  }

  /** Parsing the annotation that describes a kernel gives that kernel back. */
  lemma ParseEncode(s: Stone, a: KernelAnnotation)
    requires "kernel" in s.annotations && s.annotations["kernel"] == Encode(a)
    ensures ParseKernelAnnotations(s) == Ok(a)
  {
  }

  predicate Known(key: string) {
    key == "eol" || key == "lts" || key == "released" || key == "suffix" || key == "type"
  }

  /**
   * Other annotations, and other keys inside the `kernel` object, do not
   * change the result.
   */
  lemma OtherKeysIgnored(s: Stone, k: string, v: Value)
    ensures k != "kernel" ==> ParseKernelAnnotations(s.(annotations := s.annotations[k := v])) == ParseKernelAnnotations(s)
    ensures "kernel" in s.annotations && s.annotations["kernel"].Dict? && !Known(k) ==>
      var fields := s.annotations["kernel"].fields;
      ParseKernelAnnotations(s.(annotations := s.annotations["kernel" := Dict(fields[k := v])])) == ParseKernelAnnotations(s)
  {
  }

  /** A missing or mistyped field is not an error: an object whose fields all have the wrong type parses to the empty annotation. */
  lemma MistypedFieldsParse(s: Stone)
    requires "kernel" in s.annotations && s.annotations["kernel"] == Dict(map["suffix" := Other, "lts" := Str("yes")])
    ensures ParseKernelAnnotations(s) == Ok(KernelAnnotation("", false, "", "", ""))
  {
  }
}
