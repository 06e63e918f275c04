/** Uniform values as the scene graph and the shader program see them.

    The source distinguishes them by duck typing: an object with a
    `bindTexture`/`uniform` method is a texture binding, an array-like with a
    non-zero `length` a vector (vec2/3/4, mat3, mat4), anything else a number. */
module UniformValues {

  /** Array-like values with a truthy `length`. */
  type Vec = v: seq<real> | |v| > 0 witness [0.0]

  datatype Value = Scalar(x: real) | Vector(elems: Vec) | Texture(handle: nat)

  /** JavaScript truthiness of a uniform value: objects are truthy, numbers unless zero. */
  predicate Truthy(v: Value) {
    !(v.Scalar? && v.x == 0.0)
  }
}
