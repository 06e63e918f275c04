/** The shader program object of src/shaderManager.js (`makeShaderProgram`):
    attribute and uniform location caches, and the last-written-value cache
    that elides redundant uniform writes.

    The GL context is an oracle answering location queries for the linked
    program; the GL writes a call issues are returned as a log. */
module ShaderProgram {
  import opened Results
  import opened UniformValues

  /** A `WebGLUniformLocation` handle. */
  type Location = nat

  /** `gl.getUniformLocation(program, name)` (`None` is `null`) and `gl.getAttribLocation(program, name)`. */
  datatype Gl = Gl(uniformLocation: string -> Option<Location>, attribLocation: string -> int)

  /** Entries of `uniformValues`: a number, a `Float32Array` copy, or what a texture's `set` stored. */
  datatype Cached = CachedScalar(x: real) | CachedVector(elems: seq<real>) | CachedTexture(handle: nat)

  /** The GL uniform setters `uniforms` uses. */
  datatype Call =
    | Uniform1f(x: real)
    | Uniform2fv(v: seq<real>)
    | Uniform3fv(v: seq<real>)
    | Uniform4fv(v: seq<real>)
    | UniformMatrix3fv(v: seq<real>)
    | UniformMatrix4fv(v: seq<real>)
    | TextureUniform(handle: nat)

  /** One GL write, with the uniform it was issued for. */
  datatype Write = Write(name: string, location: Location, call: Call)

  datatype Program = Program(
    uniformLocations: map<string, Option<Location>>,
    uniformValues: map<string, Cached>,
    uniformNames: seq<string>,
    attributeLocations: map<string, int>)

  /** The `values` object: its own enumerable keys in order (what `Object.keys`
      returns) and what a property read finds, prototype chain included. */
  datatype Values = Values(keys: seq<string>, lookup: map<string, Value>)

  /** The program after a `uniforms` call, the writes issued, and the exception
      that ended the call early, if any. */
  datatype Upload = Upload(program: Program, writes: seq<Write>, failure: Option<string>)

  const UniformOfUndefined: string := "TypeError: Cannot read properties of undefined (reading 'uniform')"
  const JNotDefined: string := "ReferenceError: j is not defined"

  /** The state right after `makeShaderProgram`. */
  function New(): (p: Program)
    ensures Valid(p) && p.uniformNames == []
    ensures p.uniformLocations == map[] && p.uniformValues == map[] && p.attributeLocations == map[]
  {
    Program(map[], map[], [], map[])
  }

  /** Every uniform name `uniforms` iterates over has had its location looked up. */
  predicate Valid(p: Program) {
    forall n :: n in p.uniformNames ==> n in p.uniformLocations
  }

  /** `prepareUniforms(values)`: the names become the own keys of `values`,
      each with a fresh location query. */
  function PrepareUniforms(p: Program, values: Values, gl: Gl): (r: Program)
    ensures Valid(r) && r.uniformNames == values.keys
    ensures forall n :: n in values.keys ==> r.uniformLocations[n] == gl.uniformLocation(n)
    ensures forall n :: n in p.uniformLocations && n !in values.keys ==> n in r.uniformLocations && r.uniformLocations[n] == p.uniformLocations[n]
    ensures r.uniformValues == p.uniformValues && r.attributeLocations == p.attributeLocations
  {
    p.(uniformNames := values.keys,
       uniformLocations := p.uniformLocations + map n | n in values.keys :: gl.uniformLocation(n))
  }

  /** The setter chosen by `switch (value.length)`; other lengths issue nothing. */
  function VectorCall(v: Vec): (c: Option<Call>)
    ensures c.Some? <==> |v| in {2, 3, 4, 9, 16}
    ensures |v| == 9 ==> c == Some(UniformMatrix3fv(v))
    ensures |v| == 16 ==> c == Some(UniformMatrix4fv(v))
    ensures |v| <= 4 && c.Some? ==> c.value == [Uniform2fv(v), Uniform3fv(v), Uniform4fv(v)][|v| - 2]
    ensures c.Some? ==> !c.value.Uniform1f? && !c.value.TextureUniform? && c.value.v == v
  {
    if |v| == 2 then Some(Uniform2fv(v))
    else if |v| == 3 then Some(Uniform3fv(v))
    else if |v| == 4 then Some(Uniform4fv(v))
    else if |v| == 9 then Some(UniformMatrix3fv(v))
    else if |v| == 16 then Some(UniformMatrix4fv(v))
    else None
  }

  function VectorWrites(name: string, loc: Location, v: Vec): (ws: seq<Write>)
    ensures |ws| <= 1
  {
    match VectorCall(v)
    case None => []
    case Some(c) => [Write(name, loc, c)]
  }

  /** The comparison loop runs to the end: every element of `v` equals the
      cached element at the same index (an index past the cached array reads
      `undefined`, which differs from every number). */
  predicate ElementwiseEqual(v: seq<real>, cached: seq<real>) {
    |v| <= |cached| && forall j :: 0 <= j < |v| ==> v[j] == cached[j]
  }

  /** `value2[j] = value[j]` for every j into a `Float32Array`, whose length is
      fixed: indices past its end are dropped. */
  function CopyInto(cached: seq<real>, v: seq<real>): (r: seq<real>)
    ensures |r| == |cached|
    ensures |cached| >= |v| ==> ElementwiseEqual(v, r)
    ensures forall j :: 0 <= j < |cached| && j >= |v| ==> r[j] == cached[j]
  {
    seq(|cached|, j requires 0 <= j < |cached| => if j < |v| then v[j] else cached[j])
  }

  /** `value != uniformValues[name]` is false: the cache holds the same number,
      or a one-element `Float32Array` (loose equality compares its string form). */
  predicate ScalarMatches(x: real, cache: map<string, Cached>, name: string) {
    name in cache && (cache[name] == CachedScalar(x) || cache[name] == CachedVector([x]))
  }

  /** One iteration of the loop of `uniforms` for uniform `name`, with the
      vector branch as evidently intended (skip when element-wise equal,
      otherwise copy into the cached array and write). */
  function WriteOne(p: Program, name: string, values: Values): (r: Upload)
    requires name in p.uniformLocations
    ensures r.program.uniformLocations == p.uniformLocations && r.program.uniformNames == p.uniformNames
    ensures r.program.attributeLocations == p.attributeLocations
    ensures forall m :: m != name ==> (m in r.program.uniformValues <==> m in p.uniformValues)
    ensures forall m :: m != name && m in p.uniformValues ==> r.program.uniformValues[m] == p.uniformValues[m]
    ensures forall m :: m in p.uniformValues ==> m in r.program.uniformValues
    ensures |r.writes| <= 1
    ensures forall w :: w in r.writes ==> w.name == name && p.uniformLocations[name] == Some(w.location)
    ensures r.failure.Some? <==> p.uniformLocations[name].Some? && name !in values.lookup
    ensures r.failure.Some? ==> r.failure == Some(UniformOfUndefined) && r.program == p
    ensures p.uniformLocations[name].None? ==> r == Upload(p, [], None)
  {
    match p.uniformLocations[name]
    case None => Upload(p, [], None)
    case Some(loc) =>
      if name !in values.lookup then Upload(p, [], Some(UniformOfUndefined))
      else
        match values.lookup[name]
        case Texture(h) =>
          if name in p.uniformValues && p.uniformValues[name] == CachedTexture(h) then Upload(p, [], None)
          else Upload(p.(uniformValues := p.uniformValues[name := CachedTexture(h)]), [Write(name, loc, TextureUniform(h))], None)
        case Vector(v) =>
          var ws := VectorWrites(name, loc, v);
          if name in p.uniformValues && p.uniformValues[name].CachedVector? then
            var c := p.uniformValues[name].elems;
            if ElementwiseEqual(v, c) then Upload(p, [], None)
            else Upload(p.(uniformValues := p.uniformValues[name := CachedVector(CopyInto(c, v))]), ws, None)
          else Upload(p.(uniformValues := p.uniformValues[name := CachedVector(v)]), ws, None)
        case Scalar(x) =>
          if ScalarMatches(x, p.uniformValues, name) then Upload(p, [], None)
          else Upload(p.(uniformValues := p.uniformValues[name := CachedScalar(x)]), [Write(name, loc, Uniform1f(x))], None)
  }

  /** The same iteration as written: reading `j` after its `for (let j ...)`
      loop throws whenever the vector already has a cache entry. */
  function WriteOneAsWritten(p: Program, name: string, values: Values): (r: Upload)
    requires name in p.uniformLocations
    ensures r.failure == Some(JNotDefined) <==>
      && p.uniformLocations[name].Some? && name in values.lookup
      && values.lookup[name].Vector? && name in p.uniformValues
    ensures r.failure != Some(JNotDefined) ==> r == WriteOne(p, name, values)
  {
    if p.uniformLocations[name].Some? && name in values.lookup && values.lookup[name].Vector? && name in p.uniformValues
    then Upload(p, [], Some(JNotDefined))
    else WriteOne(p, name, values)
  }

  /** The loop `for (let uniformName of uniformNames)`, stopping at the first exception. */
  function WriteAll(p: Program, names: seq<string>, values: Values): (r: Upload)
    requires forall n :: n in names ==> n in p.uniformLocations
    ensures r.program.uniformLocations == p.uniformLocations && r.program.uniformNames == p.uniformNames
    ensures r.program.attributeLocations == p.attributeLocations
    ensures forall w :: w in r.writes ==> w.name in names && p.uniformLocations[w.name] == Some(w.location)
    ensures r.failure.Some? <==> exists n :: n in names && p.uniformLocations[n].Some? && n !in values.lookup
    decreases |names|
  {
    if names == [] then Upload(p, [], None)
    else
      var first := WriteOne(p, names[0], values);
      if first.failure.Some? then first
      else
        var rest := WriteAll(first.program, names[1..], values);
        Upload(rest.program, first.writes + rest.writes, rest.failure)
  }

  /** The loop as written: it throws the ReferenceError at the first vector
      with a cache entry, and agrees with `WriteAll` whenever it does not. */
  function WriteAllAsWritten(p: Program, names: seq<string>, values: Values): (r: Upload)
    requires forall n :: n in names ==> n in p.uniformLocations
    ensures r.program.uniformLocations == p.uniformLocations && r.program.uniformNames == p.uniformNames
    ensures r.failure != Some(JNotDefined) ==> r == WriteAll(p, names, values)
    ensures r.failure == Some(JNotDefined) ==>
      exists n :: n in names && p.uniformLocations[n].Some? && n in values.lookup && values.lookup[n].Vector?
    ensures ((forall n :: n in names ==> n in values.lookup) &&
             (exists n :: n in names && p.uniformLocations[n].Some? && values.lookup[n].Vector? && n in p.uniformValues)) ==>
            r.failure == Some(JNotDefined)
    decreases |names|
  {
    if names == [] then Upload(p, [], None)
    else
      var first := WriteOneAsWritten(p, names[0], values);
      if first.failure.Some? then first
      else
        var rest := WriteAllAsWritten(first.program, names[1..], values);
        Upload(rest.program, first.writes + rest.writes, rest.failure)
  }

  /** `uniforms(values)`: the names are fixed by the first call whose `values`
      has own keys; later keys are never looked at. */
  function Uniforms(p: Program, values: Values, gl: Gl): (r: Upload)
    requires Valid(p)
    ensures Valid(r.program)
    ensures |p.uniformNames| > 0 ==> r.program.uniformNames == p.uniformNames
    ensures |p.uniformNames| == 0 ==> r.program.uniformNames == values.keys
    ensures forall w :: w in r.writes ==> w.name in r.program.uniformNames
    ensures forall w :: w in r.writes ==> r.program.uniformLocations[w.name] == Some(w.location)
    ensures r.program.attributeLocations == p.attributeLocations
  {
    var p1 := if |p.uniformNames| == 0 then PrepareUniforms(p, values, gl) else p;
    WriteAll(p1, p1.uniformNames, values)
  }

  /** `uniforms(values)` exactly as written: it agrees with `Uniforms` unless
      it throws the ReferenceError, which it does as soon as a listed vector
      uniform with a location already has a cache entry and every value is present. */
  function UniformsAsWritten(p: Program, values: Values, gl: Gl): (r: Upload)
    requires Valid(p)
    ensures Valid(r.program)
    ensures r.program.uniformNames == (if |p.uniformNames| == 0 then values.keys else p.uniformNames)
    ensures r.failure != Some(JNotDefined) ==> r == Uniforms(p, values, gl)
    ensures r.failure == Some(JNotDefined) ==>
      exists n :: n in r.program.uniformNames && n in values.lookup && values.lookup[n].Vector?
    ensures ((forall n :: n in r.program.uniformNames ==> n in values.lookup) &&
             (exists n :: n in r.program.uniformNames && r.program.uniformLocations[n].Some? &&
                          values.lookup[n].Vector? && n in p.uniformValues)) ==>
            r.failure == Some(JNotDefined)
  {
    var p1 := if |p.uniformNames| == 0 then PrepareUniforms(p, values, gl) else p;
    WriteAllAsWritten(p1, p1.uniformNames, values)
  }

  /** `getUniformLocation(name)`: queries only while the entry is missing
      (a `null` answer is stored and kept). */
  function GetUniformLocation(p: Program, name: string, gl: Gl): (r: (Program, Option<Location>))
    ensures name in r.0.uniformLocations && r.0.uniformLocations[name] == r.1
    ensures name in p.uniformLocations ==> r == (p, p.uniformLocations[name])
    ensures name !in p.uniformLocations ==> r.1 == gl.uniformLocation(name)
    ensures r.0.uniformLocations.Keys == p.uniformLocations.Keys + {name}
    ensures r.0.uniformValues == p.uniformValues && r.0.uniformNames == p.uniformNames
    ensures Valid(p) ==> Valid(r.0)
  {
    if name !in p.uniformLocations then
      var loc := gl.uniformLocation(name);
      (p.(uniformLocations := p.uniformLocations[name := loc]), loc)
    else (p, p.uniformLocations[name])
  }

  /** `getAttribLocation(name)`: a negative location throws and is not cached. */
  function GetAttribLocation(p: Program, name: string, gl: Gl): (r: Result<(Program, int)>)
    ensures r.Err? <==> name !in p.attributeLocations && gl.attribLocation(name) < 0
    ensures r.Err? ==> r.thrown == "undefined attribute " + name
    ensures r.Ok? ==> name in r.value.0.attributeLocations && r.value.0.attributeLocations[name] == r.value.1
    ensures r.Ok? && name in p.attributeLocations ==> r.value == (p, p.attributeLocations[name])
    ensures r.Ok? && name !in p.attributeLocations ==> r.value.1 == gl.attribLocation(name) >= 0
    ensures r.Ok? ==> r.value.0.uniformLocations == p.uniformLocations && r.value.0.uniformValues == p.uniformValues
  {
    if name !in p.attributeLocations then
      var loc := gl.attribLocation(name);
      if loc < 0 then Err("undefined attribute " + name)
      else Ok((p.(attributeLocations := p.attributeLocations[name := loc]), loc))
    else Ok((p, p.attributeLocations[name]))
  }

  // ---------------------------------------------------------------------
  // Write elision.

  /** Uniform `n` needs no write: its location is `null`, or the cache already
      agrees with its value under the comparison `uniforms` uses. */
  predicate Settled(p: Program, n: string, values: Values) {
    && n in p.uniformLocations
    && (p.uniformLocations[n].Some? ==>
          && n in values.lookup
          && match values.lookup[n]
             case Texture(h) => n in p.uniformValues && p.uniformValues[n] == CachedTexture(h)
             case Vector(v) => n in p.uniformValues && p.uniformValues[n].CachedVector? && ElementwiseEqual(v, p.uniformValues[n].elems)
             case Scalar(x) => ScalarMatches(x, p.uniformValues, n))
  }

  /** The cached array of `n` is at least as long as its vector value, so an in-place copy makes them equal. */
  predicate LongEnough(p: Program, n: string, values: Values) {
    n in values.lookup && values.lookup[n].Vector? && n in p.uniformValues && p.uniformValues[n].CachedVector? ==>
      |p.uniformValues[n].elems| >= |values.lookup[n].elems|
  }

  lemma SettledIsSilent(p: Program, n: string, values: Values)
    requires Settled(p, n, values)
    ensures WriteOne(p, n, values) == Upload(p, [], None)
  {
  }

  /** After its iteration a uniform is settled. */
  lemma WriteOneSettles(p: Program, n: string, values: Values)
    requires n in p.uniformLocations && LongEnough(p, n, values)
    requires WriteOne(p, n, values).failure.None?
    ensures Settled(WriteOne(p, n, values).program, n, values)
    ensures LongEnough(WriteOne(p, n, values).program, n, values)
  {
  }

  /** Settledness of `n` only depends on its location, cache entry and value. */
  lemma SettledFrame(p: Program, q: Program, n: string, values: Values)
    requires Settled(p, n, values)
    requires q.uniformLocations == p.uniformLocations
    requires (n in q.uniformValues <==> n in p.uniformValues)
    requires n in p.uniformValues ==> q.uniformValues[n] == p.uniformValues[n]
    ensures Settled(q, n, values)
  {
  }

  /** Later iterations never unsettle a settled uniform. */
  lemma {:induction false} WriteAllKeepsSettled(p: Program, names: seq<string>, values: Values, n: string)
    requires forall m :: m in names ==> m in p.uniformLocations
    requires Settled(p, n, values)
    ensures Settled(WriteAll(p, names, values).program, n, values)
    decreases |names|
  {
    if names != [] {
      var first := WriteOne(p, names[0], values);
      if names[0] == n {
        SettledIsSilent(p, n, values);
      } else {
        SettledFrame(p, first.program, n, values);
      }
      if first.failure.None? {
        WriteAllKeepsSettled(first.program, names[1..], values, n);
      }
    }
  }

  /** A completed loop leaves every iterated uniform settled. */
  lemma {:induction false} WriteAllSettles(p: Program, names: seq<string>, values: Values)
    requires forall m :: m in names ==> m in p.uniformLocations
    requires forall m :: LongEnough(p, m, values)
    requires WriteAll(p, names, values).failure.None?
    ensures forall n :: n in names ==> Settled(WriteAll(p, names, values).program, n, values)
    decreases |names|
  {
    if names != [] {
      var first := WriteOne(p, names[0], values);
      WriteOneSettles(p, names[0], values);
      forall m ensures LongEnough(first.program, m, values) {
        assert m != names[0] ==> LongEnough(p, m, values);
      }
      WriteAllSettles(first.program, names[1..], values);
      WriteAllKeepsSettled(first.program, names[1..], values, names[0]);
      forall n | n in names ensures Settled(WriteAll(p, names, values).program, n, values) {
        if n != names[0] {
          assert n in names[1..];
        }
      }
    }
  }

  /** A loop over settled uniforms writes nothing and changes nothing. */
  lemma {:induction false} AllSettledIsSilent(p: Program, names: seq<string>, values: Values)
    requires forall n :: n in names ==> n in p.uniformLocations && Settled(p, n, values)
    ensures WriteAll(p, names, values) == Upload(p, [], None)
    decreases |names|
  {
    if names != [] {
      SettledIsSilent(p, names[0], values);
      assert forall n :: n in names[1..] ==> n in names;
      AllSettledIsSilent(p, names[1..], values);
    }
  }

  /** Write elision: repeating a successful `uniforms(values)` call with the
      same values issues no GL write and leaves the program as it was.
      (Cached arrays shorter than the new vector are excluded: the in-place
      copy cannot grow a `Float32Array`, so such a vector is rewritten on
      every call.) */
  lemma RepeatIsSilent(p: Program, values: Values, gl: Gl)
    requires Valid(p)
    requires forall m :: LongEnough(p, m, values)
    requires Uniforms(p, values, gl).failure.None?
    ensures Uniforms(Uniforms(p, values, gl).program, values, gl) == Upload(Uniforms(p, values, gl).program, [], None)
  {
    var p1 := if |p.uniformNames| == 0 then PrepareUniforms(p, values, gl) else p;
    forall m ensures LongEnough(p1, m, values) {
      assert LongEnough(p, m, values);
    }
    WriteAllSettles(p1, p1.uniformNames, values);
    var q := Uniforms(p, values, gl).program;
    if |q.uniformNames| == 0 {
      assert PrepareUniforms(q, values, gl) == q;
    }
    AllSettledIsSilent(q, q.uniformNames, values);
  }

  /** Changing one scalar uniform between two calls issues exactly one write,
      for that uniform, however often its name is listed. */
  lemma {:induction false} OneChangedScalar(p: Program, names: seq<string>, values: Values, name: string, x: real)
    requires forall m :: m in names ==> m in p.uniformLocations
    requires forall m :: m in names && m != name ==> Settled(p, m, values)
    requires name in names && p.uniformLocations[name].Some?
    requires name in values.lookup && values.lookup[name] == Scalar(x) && !ScalarMatches(x, p.uniformValues, name)
    ensures WriteAll(p, names, values).writes == [Write(name, p.uniformLocations[name].value, Uniform1f(x))]
    ensures WriteAll(p, names, values).failure.None?
    decreases |names|
  {
    var first := WriteOne(p, names[0], values);
    if names[0] == name {
      WriteOneSettles(p, name, values);
      forall m | m in names[1..] ensures Settled(first.program, m, values) {
        if m != name {
          SettledFrame(p, first.program, m, values);
        }
      }
      AllSettledIsSilent(first.program, names[1..], values);
    } else {
      SettledIsSilent(p, names[0], values);
      assert forall m :: m in names[1..] ==> m in names;
      OneChangedScalar(p, names[1..], values, name, x);
    }
  }

  /** At the level of `uniforms`: after a successful call, changing one scalar field
      (to a different number) makes the next call write that field once.  The
      first call may be the one that fixes the uniform names. */
  lemma ChangedScalarWritesOnce(p: Program, values: Values, gl: Gl, name: string, x: real, x': real)
    requires Valid(p)
    requires forall m :: LongEnough(p, m, values)
    requires Uniforms(p, values, gl).failure.None?
    requires var q := Uniforms(p, values, gl).program;
      name in q.uniformNames && q.uniformLocations[name].Some?
    requires name in values.lookup && values.lookup[name] == Scalar(x) && x' != x
    ensures
      var q := Uniforms(p, values, gl).program;
      var values' := values.(lookup := values.lookup[name := Scalar(x')]);
      Uniforms(q, values', gl).writes == [Write(name, q.uniformLocations[name].value, Uniform1f(x'))]
  {
    var values' := values.(lookup := values.lookup[name := Scalar(x')]);
    var p1 := if |p.uniformNames| == 0 then PrepareUniforms(p, values, gl) else p;
    forall m ensures LongEnough(p1, m, values) {
      assert LongEnough(p, m, values);
    }
    WriteAllSettles(p1, p1.uniformNames, values);
    var q := Uniforms(p, values, gl).program;
    forall m | m in q.uniformNames && m != name ensures Settled(q, m, values') {
      assert Settled(q, m, values);
    }
    assert Settled(q, name, values);
    OneChangedScalar(q, q.uniformNames, values', name, x');
  }

  /** The scenario from a fresh program: the first `uniforms(values)` fixes the
      names, and after changing one listed scalar the second call writes it
      once, at the location the GL reported. */
  lemma ChangedScalarAfterFirstUpload(values: Values, gl: Gl, name: string, x: real, x': real)
    requires Uniforms(New(), values, gl).failure.None?
    requires name in values.keys && gl.uniformLocation(name).Some?
    requires name in values.lookup && values.lookup[name] == Scalar(x) && x' != x
    ensures
      var q := Uniforms(New(), values, gl).program;
      var values' := values.(lookup := values.lookup[name := Scalar(x')]);
      Uniforms(q, values', gl).writes == [Write(name, gl.uniformLocation(name).value, Uniform1f(x'))]
  {
    var q := Uniforms(New(), values, gl).program;
    assert q.uniformLocations == PrepareUniforms(New(), values, gl).uniformLocations;
    ChangedScalarWritesOnce(New(), values, gl, name, x, x');
  }

  /** The in-place copy cannot grow the cached `Float32Array`: a vector longer
      than its cached array is never found equal, so it is written on every call. */
  lemma GrowingVectorAlwaysRewritten(p: Program, n: string, values: Values)
    requires n in p.uniformLocations && p.uniformLocations[n].Some?
    requires n in values.lookup && values.lookup[n].Vector? && |values.lookup[n].elems| in {2, 3, 4, 9, 16}
    requires n in p.uniformValues && p.uniformValues[n].CachedVector?
    requires |p.uniformValues[n].elems| < |values.lookup[n].elems|
    ensures |WriteOne(p, n, values).writes| == 1
    ensures var q := WriteOne(p, n, values).program;
      |WriteOne(q, n, values).writes| == 1
  {
    var v := values.lookup[n].elems;
    var c := p.uniformValues[n].elems;
    var q := WriteOne(p, n, values).program;
    assert q.uniformValues[n] == CachedVector(CopyInto(c, v));
  }

  /** Each attribute is queried once: after a successful lookup, further
      lookups return the cached location whatever the GL would answer. */
  lemma AttribLocationCached(p: Program, name: string, gl: Gl, gl': Gl)
    requires GetAttribLocation(p, name, gl).Ok?
    ensures var (q, loc) := GetAttribLocation(p, name, gl).value;
      GetAttribLocation(q, name, gl') == Ok((q, loc))
  {
  }

  /** A missing attribute is not cached: a later lookup queries the GL again. */
  lemma MissingAttribNotCached(p: Program, name: string, gl: Gl, gl': Gl)
    requires GetAttribLocation(p, name, gl).Err? && gl'.attribLocation(name) >= 0
    ensures GetAttribLocation(p, name, gl') == Ok((p.(attributeLocations := p.attributeLocations[name := gl'.attribLocation(name)]), gl'.attribLocation(name)))
  {
  }

  /** Uniform locations are queried while missing only: once stored (even
      `null`), every later lookup returns the stored answer. */
  lemma UniformLocationCached(p: Program, name: string, gl: Gl, gl': Gl)
    ensures var (q, loc) := GetUniformLocation(p, name, gl);
      GetUniformLocation(q, name, gl') == (q, loc)
  {
  }

  /** Write elision in both directions: a uniform with a location and a
      writable value is written exactly when the cache disagrees with it. */
  lemma WritesExactlyWhenUnsettled(p: Program, n: string, values: Values)
    requires n in p.uniformLocations && p.uniformLocations[n].Some? && n in values.lookup
    requires values.lookup[n].Vector? ==> VectorCall(values.lookup[n].elems).Some?
    ensures WriteOne(p, n, values).writes == [] <==> Settled(p, n, values)
  {
  }

  /** A number is written and cached when the cache disagrees with it. */
  lemma ScalarWrittenWhenChanged(p: Program, n: string, values: Values, x: real)
    requires n in p.uniformLocations && p.uniformLocations[n].Some?
    requires n in values.lookup && values.lookup[n] == Scalar(x)
    requires !ScalarMatches(x, p.uniformValues, n)
    ensures WriteOne(p, n, values).writes == [Write(n, p.uniformLocations[n].value, Uniform1f(x))]
    ensures WriteOne(p, n, values).program.uniformValues[n] == CachedScalar(x)
  {
  }

  /** A texture is uploaded only when it is not the one its `set` stored, and
      is then stored. */
  lemma TextureWrittenWhenChanged(p: Program, n: string, values: Values, h: nat)
    requires n in p.uniformLocations && p.uniformLocations[n].Some?
    requires n in values.lookup && values.lookup[n] == Texture(h)
    ensures var r := WriteOne(p, n, values);
      && (r.writes == [] <==> n in p.uniformValues && p.uniformValues[n] == CachedTexture(h))
      && (r.writes != [] ==> r.writes == [Write(n, p.uniformLocations[n].value, TextureUniform(h))])
      && r.program.uniformValues[n] == CachedTexture(h)
  {
  }

  /** A vector without a cached array gets a copy of itself cached, and is
      written with the setter for its length; other lengths are cached only. */
  lemma NewVectorCachedAndWritten(p: Program, n: string, values: Values)
    requires n in p.uniformLocations && p.uniformLocations[n].Some?
    requires n in values.lookup && values.lookup[n].Vector?
    requires !(n in p.uniformValues && p.uniformValues[n].CachedVector?)
    ensures var r := WriteOne(p, n, values);
      var v := values.lookup[n].elems;
      && r.failure.None?
      && r.program.uniformValues[n] == CachedVector(v)
      && (VectorCall(v).Some? ==> r.writes == [Write(n, p.uniformLocations[n].value, VectorCall(v).value)])
      && (VectorCall(v).None? ==> r.writes == [])
  {
  }

  /** A vector that differs from its cached array is copied into it, element
      by element, and written; the copy equals the vector when the lengths agree. */
  lemma ChangedVectorCopiedAndWritten(p: Program, n: string, values: Values)
    requires n in p.uniformLocations && p.uniformLocations[n].Some?
    requires n in values.lookup && values.lookup[n].Vector?
    requires n in p.uniformValues && p.uniformValues[n].CachedVector?
    requires !ElementwiseEqual(values.lookup[n].elems, p.uniformValues[n].elems)
    ensures var r := WriteOne(p, n, values);
      var v := values.lookup[n].elems;
      var c := p.uniformValues[n].elems;
      && r.program.uniformValues[n] == CachedVector(CopyInto(c, v))
      && (|c| == |v| ==> CopyInto(c, v) == v)
      && r.writes == VectorWrites(n, p.uniformLocations[n].value, v)
  {
    var v := values.lookup[n].elems;
    var c := p.uniformValues[n].elems;
    if |c| == |v| {
      assert CopyInto(c, v) == v;
    }
  }

  // ---------------------------------------------------------------------
  // The vector branch as written.

  /** Every location answers 0. */
  function UniformAt0(name: string): Option<Location> { Some(0) }
  function NoAttributes(name: string): int { -1 }

  /** The first upload of a 3-vector uniform `u`: the source and the
      corrected loop agree, write the vector once and cache a copy. */
  lemma FirstVectorUpload()
    ensures
      var gl := Gl(UniformAt0, NoAttributes);
      var first := Values(["u"], map["u" := Vector([1.0, 2.0, 3.0])]);
      var r1 := UniformsAsWritten(New(), first, gl);
      && r1 == Uniforms(New(), first, gl)
      && r1.writes == [Write("u", 0, Uniform3fv([1.0, 2.0, 3.0]))]
      && r1.program.uniformNames == ["u"]
      && r1.program.uniformLocations == map["u" := Some(0)]
      && r1.program.uniformValues == map["u" := CachedVector([1.0, 2.0, 3.0])]
  {
    var gl := Gl(UniformAt0, NoAttributes);
    var first := Values(["u"], map["u" := Vector([1.0, 2.0, 3.0])]);
    var p1 := PrepareUniforms(New(), first, gl);
    assert p1.uniformLocations == map["u" := Some(0)];
    var r1 := UniformsAsWritten(New(), first, gl);
    assert r1.program.uniformValues == map["u" := CachedVector([1.0, 2.0, 3.0])];
  }

  /** A program holding `u` at location 0 with the cached vector `[1, 2, 3]`. */
  predicate HoldsFirstVector(p: Program) {
    && p.uniformNames == ["u"]
    && p.uniformLocations == map["u" := Some(0)]
    && p.uniformValues == map["u" := CachedVector([1.0, 2.0, 3.0])]
  }

  /** Uploading `[4, 5, 6]` over the cached `[1, 2, 3]`: the corrected loop
      writes it, and uploading it again is elided. */
  lemma SecondVectorUpload(p: Program, gl: Gl)
    requires HoldsFirstVector(p)
    ensures
      var second := Values(["u"], map["u" := Vector([4.0, 5.0, 6.0])]);
      var r2 := Uniforms(p, second, gl);
      && r2.writes == [Write("u", 0, Uniform3fv([4.0, 5.0, 6.0]))]
      && Uniforms(r2.program, second, gl).writes == []
  {
    var second := Values(["u"], map["u" := Vector([4.0, 5.0, 6.0])]);
    assert !ElementwiseEqual([4.0, 5.0, 6.0], [1.0, 2.0, 3.0]) by {
      assert [4.0, 5.0, 6.0][0] != [1.0, 2.0, 3.0][0];
    }
    var r2 := Uniforms(p, second, gl);
    assert CopyInto([1.0, 2.0, 3.0], [4.0, 5.0, 6.0]) == [4.0, 5.0, 6.0];
    assert r2.program.uniformValues == map["u" := CachedVector([4.0, 5.0, 6.0])];
  }

  /** Two uploads of a 3-vector uniform `u`: the source throws a
      ReferenceError on the second, the corrected loop writes the new vector
      and the third, identical upload is elided. */
  lemma SecondVectorUploadThrowsAsWritten()
    ensures
      var gl := Gl(UniformAt0, NoAttributes);
      var first := Values(["u"], map["u" := Vector([1.0, 2.0, 3.0])]);
      var second := Values(["u"], map["u" := Vector([4.0, 5.0, 6.0])]);
      var r1 := UniformsAsWritten(New(), first, gl);
      && r1 == Uniforms(New(), first, gl)
      && r1.writes == [Write("u", 0, Uniform3fv([1.0, 2.0, 3.0]))]
      && UniformsAsWritten(r1.program, second, gl).failure == Some(JNotDefined)
      && Uniforms(r1.program, second, gl).writes == [Write("u", 0, Uniform3fv([4.0, 5.0, 6.0]))]
      && Uniforms(Uniforms(r1.program, second, gl).program, second, gl).writes == []
  {
    var gl := Gl(UniformAt0, NoAttributes);
    var first := Values(["u"], map["u" := Vector([1.0, 2.0, 3.0])]);
    var second := Values(["u"], map["u" := Vector([4.0, 5.0, 6.0])]);
    FirstVectorUpload();
    var p := UniformsAsWritten(New(), first, gl).program;
    assert HoldsFirstVector(p);
    var r := UniformsAsWritten(p, second, gl);
    assert "u" in r.program.uniformNames && r.program.uniformLocations["u"].Some? && "u" in p.uniformValues;
    SecondVectorUpload(p, gl);
  }
}
