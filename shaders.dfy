/**
 * The shader registry (shaders.js): one vertex program and a closed table of named fragment
 * programs. The GLSL text is opaque here; a program is identified by the file it is loaded from.
 */
module Shaders {
  import opened Wrappers

  datatype Source = Glsl(file: string)

  /** `shaders.vertex.projection`, the only vertex program. */
  const Projection: Source := Glsl("shaders/raymarching.vertex.glsl")

  /** `shaders.fragment`. */
  const Fragments: map<string, Source> := map[
    "upstream" := Glsl("shaders/raymarching.fragment.glsl"),
    "cube" := Glsl("shaders/cube.fragment.glsl"),
    "spongebob" := Glsl("shaders/spongebob.fragment.glsl"),
    "mountains" := Glsl("shaders/mountains.fragment.glsl"),
    "night" := Glsl("shaders/night.fragment.glsl"),
    "refraction" := Glsl("shaders/refraction.fragment.glsl")
  ]

  /** `shaders.fragment[name]`: undefined (None) for a name outside the table. */
  function Fragment(name: string): (r: Option<Source>)
    ensures r.Some? <==> name in {"upstream", "cube", "spongebob", "mountains", "night", "refraction"}
    ensures r.Some? ==> r.value == Fragments[name]
  {
    if name in Fragments then Some(Fragments[name]) else None
  }

  /** Different names select different programs. */
  lemma FragmentsDistinct(a: string, b: string)
    requires a in Fragments && b in Fragments && a != b
    ensures Fragment(a) != Fragment(b)
  {
  }
}
