# voxgl core in Dafny

A functional model of the logic at the heart of voxgl, a small WebGL voxel
engine written in JavaScript. The model covers seven pieces:

- **the scene graph** (`src/scene.js`): a depth-first `visit` of nodes. Each
  node kind pushes onto the graph's three LIFO stores in `enter` and pops
  them in `exit`. The stores are the layered uniform environment (a
  prototype chain), the texture-unit counter and the shader stack. A mesh
  visit adds to the frame statistics.
- **the event bus** (`src/events.js`): `on`, `once`, `off`, `emit` and
  `clear` over an id counter, a subscription map and per-event handler
  lists. Callbacks are opaque tokens, and `emit` returns the invocations
  it makes, in order.
- **the shader program's uniform upload** (`src/shaderManager.js`):
  `prepareUniforms`, `uniforms`, `getUniformLocation` and
  `getAttribLocation`. There are two location caches and a
  last-written-value cache that elides GL writes. The GL is an oracle
  answering location queries, and the writes it receives are returned as a
  log.
- **the cube generator** (`src/mesh.js`): the 8 corners and the
  36-vertex, 108-number triangle list.
- **the input state machine** (`src/input.js`): key names, the key map,
  the mouse, and focus and blur resets.
- **the frame clock** (`src/clock.js`): `now()` readings are parameters,
  and the `nextTick` scheduler is a count of pending callbacks.
- **the id generator** (`src/utils.js`): a counter bounded by
  `Number.MAX_SAFE_INTEGER`.

Files:

- `results.dfy` holds `Option` and `Result`. `Err` carries the string a JS
  `throw` would raise.
- `uniform_values.dfy` holds the tagged uniform value: scalar, vector or
  texture.
- Then one file per source file: `scene.dfy`, `events.dfy`,
  `shader_program.dfy`, `mesh.dfy`, `input.dfy`, `clock.dfy` and `ids.dfy`.
- `scenario.dfy` draws a frame of cubes through a material and a
  transform.

Matrix multiplication is an uninterpreted parameter `mul`. JS numbers are
`real` wherever they are measured: clock readings and tick lengths, mouse
coordinates, uniform values, vertex counts and the event payload. They
carry no Float32 rounding. Counters and codes are integers: ids, texture
units, draw calls, key codes and locations.

## Model

| member | source | states |
|---|---|---|
| Ids.Next | src/utils.js:1-7 | a call yields the counter and advances it exactly while it is below MAX_SAFE_INTEGER; every id lies in [1, MAX_SAFE_INTEGER); at MAX_SAFE_INTEGER the call throws "Cannot generate more ids"; a finished generator yields undefined |
| Ids.Calls | src/utils.js:9-11 | n calls of the closure give n outcomes and leave the generator in a reachable state |
| Ids.CallsCount | src/utils.js:2-5 | below the bound, n calls from counter i return i, i+1, …, i+n-1 and leave the counter at i+n |
| Ids.FreshYieldsSuccessors | src/utils.js:2-4 | a fresh generator returns 1 first, and each later id is the previous one plus 1 |
| Ids.ExhaustionThrowsOnce | src/utils.js:3-6 | after MAX_SAFE_INTEGER-1 ids the next call throws the message once; every call after that returns undefined |
| Ids.CompletedStaysUndefined | src/utils.js:6-11 | once the generator has thrown, any number of further calls return undefined and it stays finished |
| Ids.MakeIdGenerator | src/utils.js:9-12 | each call adds a new generator in its fresh state and leaves the existing ones untouched |
| Ids.CallGenerator | src/utils.js:9-11 | calling one closure advances only its own generator |
| Ids.GeneratorsIndependent | src/utils.js:9-12 | calling another generator does not change the id this one returns next |
| Events.Make | src/events.js:1-4 | a new bus is consistent, its first id is 1, and it has no subscriptions and no handler lists |
| Events.Register | src/events.js:11-18 | registration takes the next id, records the subscription and appends the handler to that event's list only, creating the list when missing |
| Events.On | src/events.js:7-19 | a non-function callback throws "callback must be a function, get <type>" and produces no new state; otherwise the callback gets the next id and goes last in its event's list, whose entry now exists |
| Events.Once | src/events.js:20-29 | same checks and id as `on`; the subscription recorded is the event with a wrapper owned by the new id, and that wrapper goes last in the event's list |
| Events.Without | src/events.js:34-36 | the identity filter keeps exactly the handlers that differ from the removed one, each as many times as before |
| Events.WithoutDistributes | src/events.js:34-36 | filtering a concatenation filters each part, so the survivors keep their relative order |
| Events.Off | src/events.js:30-44 | an unknown id changes nothing; a known id's subscription is deleted; every identical handler of its event is dropped; the event entry survives iff some other handler remains; other events are untouched |
| Events.OffAsWritten | src/events.js:30-44 | the source's `off` throws exactly when the subscription's event has no handler list left; otherwise it agrees with `Off` |
| Events.RunHandlers | src/events.js:45-47 | every handler of the snapshot is invoked once with the payload, in order; subscriptions are only removed and no handler is added; a snapshot of plain handlers changes nothing |
| Events.Emit | src/events.js:45-48 | the invocations are exactly the event's handlers at emit time, in registration order, each with the payload; an unknown event invokes nothing and changes nothing |
| Events.Clear | src/events.js:49-52 | all subscriptions and handlers are dropped, but the id counter is kept |
| Events.RegisterKeepsValid | src/events.js:11-18 | registration keeps the bus consistent: subscriptions and handler lists agree, and ids are below the counter |
| Events.OnOnceKeepValid | src/events.js:7-29 | `on` and `once` keep the bus consistent |
| Events.OffKeepsValid | src/events.js:30-44 | `off` keeps the bus consistent and removes the event entries it empties |
| Events.OffRemovesWrapper | src/events.js:24-25 | a once-wrapper's own `off` removes the wrapper from every list and deletes its subscription |
| Events.RunHandlersKeepsValid | src/events.js:45-47 | running a snapshot keeps the bus consistent, and every once-wrapper that ran is gone afterwards |
| Events.EmitKeepsValid | src/events.js:45-48 | `emit` keeps the bus consistent |
| Events.RunHandlersSubscriptions | src/events.js:24-25 | running a snapshot deletes exactly the subscriptions of the once-wrappers in it |
| Events.RunHandlersFrame | src/events.js:24-25 | a snapshot whose wrappers belong to other events leaves an event's list unchanged |
| Events.RunHandlersKeepsPlain | src/events.js:34-36 | running a snapshot never removes a plain handler from any list |
| Events.EmitEffect | src/events.js:45-48 | on a consistent bus, `emit` deletes exactly the subscriptions of the event's once-handlers. The event's list becomes its plain handlers, in order with repetitions, and every other event's list is unchanged |
| Events.RunHandlersDropsWrappers | src/events.js:24-25 | running a snapshot removes exactly the snapshot's once-wrappers from the event's list and keeps the other handlers in order |
| Events.EmitLeavesPlains | src/events.js:45-48 | after `emit` on a consistent bus, the event's list is exactly its plain handlers in registration order, repetitions kept |
| Events.WithoutIsDrop | src/events.js:34-36 | one identity filter removes exactly that handler, keeping the order of the rest |
| Events.DropWrappersIsPlains | src/events.js:34-36 | removing exactly the wrappers of a list leaves its plain handlers in order |
| Events.OnceFiresAtMostOnce | src/events.js:20-29 | the emit that reaches a once handler invokes it after all earlier handlers; afterwards its subscription is gone and only older handlers remain for that event |
| Events.IdsAreSequential | src/events.js:11 | `off`, `emit` and `clear` do not move the counter, so the next subscription gets the next id |
| Events.FirstIds | src/events.js:2-11 | the first two subscriptions of a new bus get ids 1 and 2 |
| Events.OffRemovesEveryOccurrence | src/events.js:34-36 | `off` drops every occurrence of the callback under the event, and keeps every other handler |
| Events.OffAsWrittenThrowsOnSharedCallback | src/events.js:31-36 | the same callback subscribed twice, then `off(1)` and `off(2)`: the second throws in the source and leaves subscription 2 behind; `Off` deletes it |
| Events.OffAsWrittenThrowsOnlyForPlain | src/events.js:31-36 | on a consistent bus the source's `off` can throw only for a plain (non-once) subscription |
| Clock.MakeClock | src/clock.js:3-15 | a non-function `nextTick` throws its message (checked first), then a non-function `now` throws its own; otherwise the clock is stopped with no time, nothing pending and a fresh bus |
| Clock.Tick | src/clock.js:17-22 | a tick emits "tick" with dt = reading − previous time (null counts as 0): its invocations and the bus afterwards are exactly that emit's; the reading is stored |
| Clock.Start | src/clock.js:25-38 | `start` sets running and takes one reading for `time`. A second reading drives an immediate tick: its invocations and the bus afterwards are those of emitting "tick" with the difference. One callback is scheduled |
| Clock.Stop | src/clock.js:39-41 | `stop` clears running and changes nothing else |
| Clock.Fire | src/clock.js:31-36 | a scheduled callback ticks once: it stores the reading, and its invocations and bus are those of emitting "tick" with the elapsed time. It reschedules itself iff the clock is running |
| Clock.StoppedClockDrains | src/clock.js:31-36 | on a stopped clock, each pending callback fires one tick and schedules nothing |
| Clock.StartStopSchedule | src/clock.js:25-41 | start then stop leaves one pending callback; it fires one tick of the elapsed time and nothing stays scheduled |
| Clock.RunningKeepsOneChain | src/clock.js:31-36 | while running, firing keeps the number of pending callbacks |
| Input.FromCharCode | src/input.js:114 | the key is the UTF-16 code unit code mod 65536, which equals the code when that is in range |
| Input.KeyName | src/input.js:110-115 | a code in the table maps to its name, any other code to `String.fromCharCode(code)` |
| Input.Reset | src/input.js:82-91 | the key map is exactly the chars 65..127 plus the named keys, all false; the mouse is up at (0, 0); focus and offset are kept |
| Input.Make | src/input.js:27-34 | a new handler is focused, with the element's offset; its key map is the reset one with every key false, and the mouse is up at (0, 0) |
| Input.KeyDown | src/input.js:92-95 | only the mapped key is set, to true; everything else is unchanged |
| Input.KeyUp | src/input.js:96-99 | only the mapped key is set, to false; everything else is unchanged |
| Input.Blur | src/input.js:72-75 | blur loses focus and resets keys and mouse |
| Input.Focus | src/input.js:76-81 | focus resets only when unfocused; when already focused it changes nothing |
| Input.MouseDown | src/input.js:100-102 | only `mouse.down` changes, to true |
| Input.MouseUp | src/input.js:103-105 | only `mouse.down` changes, to false |
| Input.MouseMove | src/input.js:106-109 | the stored position plus the element offset is the page position; nothing else changes |
| Input.KeyNamesInjective | src/input.js:2-25 | no two codes of the table share a name |
| Input.ResetCoversNamedCodes | src/input.js:82-89 | after a reset, the key of every named code and of every code 65..127 is present and false |
| Input.KeyNameCollisions | src/input.js:110-115 | two different codes share a key only when neither is in the table and they are equal mod 65536 |
| Input.KeyDownUpRoundTrip | src/input.js:92-99 | pressing then releasing a key that was up restores the state |
| Input.MouseButtonRoundTrip | src/input.js:100-105 | pressing then releasing the button, when it was up, restores the state; pressing again gives the pressed state back |
| Input.FocusAfterBlur | src/input.js:72-81 | focus and blur are idempotent, and focus after blur gives a focused, reset state |
| Mesh.MakeCube | src/mesh.js:1-15 | there are 8 points, and point i is the corner whose bits select base or base + edge per axis |
| Mesh.FaceCorner | src/mesh.js:20-62 | every entry of the triangle list names one of the 8 points |
| Mesh.Flatten | src/mesh.js:64 | `.flat()` gives 3 numbers per point, in order: x, y, z |
| Mesh.TriFaces | src/mesh.js:19-65 | the list has 36 vertices |
| Mesh.TriFacesVertices | src/mesh.js:19-65 | the flattened list has 108 numbers |
| Mesh.PointsOnCubeCorners | src/mesh.js:4-15 | every coordinate is the base or base + edge; points 0–3 lie at y and points 4–7 at y + edge |
| Mesh.PointsDistinct | src/mesh.js:4-15 | with a non-zero edge the 8 points are pairwise distinct |
| Mesh.Defaults | src/mesh.js:1-2 | the defaults are position (0,0,0), edge 1 and color [0,0,0]; `getColor` returns a given color |
| Mesh.VerticesAreCorners | src/mesh.js:19-65 | each of the 36 vertices read back from the 108 numbers is the listed point, hence one of the 8 |
| Mesh.FaceIsQuad | src/mesh.js:20-62 | each group of 6 is two triangles (a,b,c),(a,c,d) over 4 distinct corners on one side of one axis |
| Mesh.FacesArePlanar | src/mesh.js:20-62 | the 6 vertices of each face share one coordinate, equal to the base or base + edge |
| ShaderProgram.New | src/shaderManager.js:29-32 | a new program has empty location and value caches and no uniform names |
| ShaderProgram.PrepareUniforms | src/shaderManager.js:38-43 | the names become the own keys of `values`, each with a fresh location query; other cached locations and the value cache are kept |
| ShaderProgram.VectorCall | src/shaderManager.js:80-97 | lengths 2, 3, 4, 9 and 16 select uniform2fv, uniform3fv, uniform4fv, uniformMatrix3fv and uniformMatrix4fv; other lengths select nothing |
| ShaderProgram.CopyInto | src/shaderManager.js:72-74 | the in-place copy keeps the cached array's length, overwrites the prefix and keeps the rest |
| ShaderProgram.WriteOne | src/shaderManager.js:49-105 | a null location is skipped with no write and no cache change; a missing value throws; at most one write, for this uniform at its location; other cache entries untouched |
| ShaderProgram.WriteOneAsWritten | src/shaderManager.js:61-76 | the source throws a ReferenceError exactly when a vector already has a cache entry, and otherwise agrees with `WriteOne` |
| ShaderProgram.WriteAll | src/shaderManager.js:49-106 | the loop writes only listed uniforms at their cached locations, and stops with an error iff some listed uniform with a location has no value |
| ShaderProgram.WriteAllAsWritten | src/shaderManager.js:49-106 | the source's loop agrees with `WriteAll` unless it throws the ReferenceError; it throws only when a listed uniform holds a vector, and it always throws when every value is present and some listed vector with a location already has a cache entry |
| ShaderProgram.Uniforms | src/shaderManager.js:45-107 | the first call fixes the names to the keys it is given; later calls keep them, so later keys are never written |
| ShaderProgram.UniformsAsWritten | src/shaderManager.js:45-107 | the source's `uniforms` agrees with `Uniforms` unless it throws the ReferenceError; it throws only for a vector value, and always once a listed vector with a location has a cache entry and every value is present |
| ShaderProgram.GetUniformLocation | src/shaderManager.js:109-114 | the GL is queried only when the name has no cache entry; the answer, null included, is cached and returned |
| ShaderProgram.GetAttribLocation | src/shaderManager.js:115-124 | an uncached name is queried; a negative answer throws "undefined attribute <name>" and caches nothing; a cached one returns its location |
| ShaderProgram.SettledIsSilent | src/shaderManager.js:53-105 | a uniform whose cache agrees with its value causes no write and no change |
| ShaderProgram.WriteOneSettles | src/shaderManager.js:55-103 | after a successful write the uniform's cache agrees with its value |
| ShaderProgram.SettledFrame | src/shaderManager.js:49-106 | a uniform stays settled while its cache entry and location do not change |
| ShaderProgram.WriteAllKeepsSettled | src/shaderManager.js:49-106 | the loop keeps settled uniforms settled |
| ShaderProgram.WriteAllSettles | src/shaderManager.js:49-106 | after a successful loop every listed uniform is settled |
| ShaderProgram.AllSettledIsSilent | src/shaderManager.js:49-106 | a loop over settled uniforms issues no write and changes nothing |
| ShaderProgram.RepeatIsSilent | src/shaderManager.js:45-107 | uploading the same values twice issues no write the second time |
| ShaderProgram.OneChangedScalar | src/shaderManager.js:99-104 | when only one scalar differs from its cache, the loop issues exactly one uniform1f write, for it |
| ShaderProgram.ChangedScalarWritesOnce | src/shaderManager.js:45-107 | after any successful upload, including the first on a fresh program, changing one listed scalar to a different number makes the next upload write exactly that scalar, once, at its location |
| ShaderProgram.ChangedScalarAfterFirstUpload | src/shaderManager.js:38-107 | from a fresh program: the first upload fixes the names, and after one listed scalar changes the second upload writes it once, at the location the GL reported |
| ShaderProgram.GrowingVectorAlwaysRewritten | src/shaderManager.js:62-76 | a vector longer than its cached array is never found equal, so it is written on every upload |
| ShaderProgram.WritesExactlyWhenUnsettled | src/shaderManager.js:53-104 | a uniform with a location and a writable value is written iff its cache disagrees with it |
| ShaderProgram.ScalarWrittenWhenChanged | src/shaderManager.js:99-104 | a number that differs from the cache is written with uniform1f and cached |
| ShaderProgram.TextureWrittenWhenChanged | src/shaderManager.js:55-59 | a texture is uploaded iff the cache does not hold it, and is cached afterwards |
| ShaderProgram.NewVectorCachedAndWritten | src/shaderManager.js:77-96 | a vector with no cached array is cached as a copy and written with the setter for its length; other lengths are cached only |
| ShaderProgram.ChangedVectorCopiedAndWritten | src/shaderManager.js:62-96 | a vector that differs from its cached array is copied into it and written; with equal lengths the cache then equals the vector |
| ShaderProgram.AttribLocationCached | src/shaderManager.js:115-124 | after a successful lookup, later lookups return the cached location whatever the GL would answer |
| ShaderProgram.MissingAttribNotCached | src/shaderManager.js:116-120 | a failed lookup caches nothing, so a later lookup queries the GL again |
| ShaderProgram.UniformLocationCached | src/shaderManager.js:109-114 | once a location (null included) is cached, later lookups return it without a query |
| ShaderProgram.SecondVectorUploadThrowsAsWritten | src/shaderManager.js:64-69 | uploading a 3-vector twice: the source throws on the second upload; the intended loop writes the new vector, and a third identical upload is elided |
| ShaderProgram.FirstVectorUpload | src/shaderManager.js:77-96 | the first upload of a 3-vector is the same in the source and the corrected loop: one uniform3fv write, and a copy cached |
| ShaderProgram.SecondVectorUpload | src/shaderManager.js:62-76 | over a cached `[1, 2, 3]`, the corrected loop writes `[4, 5, 6]` once and then elides the identical upload |
| Scene.Append | src/scene.js:17-19 | the child is added last and the earlier children are unchanged |
| Scene.MakeGraph | src/scene.js:50-60 | a new graph has one empty uniforms object, so every name reads as undefined; its texture unit is 0, there is no shader and the statistics are zero |
| Scene.PushUniforms | src/scene.js:70-72 | the new empty layer inherits every name from its parent |
| Scene.PopUniforms | src/scene.js:73-75 | pop drops exactly the top layer and changes no other store; every name the top layer does not define reads as before |
| Scene.PushTexture | src/scene.js:76-78 | returns the current unit and increments the counter |
| Scene.PopTexture | src/scene.js:79-81 | decrements the counter and changes nothing else |
| Scene.PushShader | src/scene.js:82-84 | the shader goes on top of the stack |
| Scene.PopShader | src/scene.js:85-87 | removes the top shader; an empty stack stays as it is |
| Scene.GetShader | src/scene.js:88-90 | undefined iff the stack is empty, otherwise the shader on top |
| Scene.AllocateTextures | src/scene.js:29-34 | k texture uniforms receive the consecutive units from the current one, and the counter moves past them |
| Scene.ReleaseTextures | src/scene.js:39-45 | k texture uniforms give back k units |
| Scene.EnterUniforms | src/scene.js:28-37 | one unit per texture uniform; one new top layer holding exactly the node's uniforms; shaders and statistics untouched |
| Scene.EnterUniformsAsWritten | src/scene.js:28-36 | the source's `enter` throws the ReferenceError for `extend` after it has pushed one unit per texture uniform and an empty layer, which stay behind |
| Scene.ExitUniforms | src/scene.js:38-47 | releases the node's texture units and drops the top layer |
| Scene.EnterMaterialAsWritten | src/scene.js:97-100 | the source's material `enter` throws the TypeError for `scene.Uniforms` after pushing its shader, which stays on top |
| Scene.EnterMaterial | src/scene.js:97-101 | a material pushes its shader, which `getShader` then returns, and enters as a uniforms node |
| Scene.EnterTransform | src/scene.js:201-210 | a transform pushes one layer holding only modelTransform, and changes neither texture units nor shaders |
| Scene.Enter | src/scene.js:20-37 | a plain node changes nothing, a uniforms node pushes one layer; each kind pushes at most one layer and leaves statistics alone |
| Scene.Exit | src/scene.js:102-105 | a material leaves as a uniforms node, then pops its shader |
| Scene.MeshVisit | src/scene.js:298-299 | a mesh adds one draw call and vbo.length/3 vertices |
| Scene.Visit | src/scene.js:9-16 | a full visit leaves the uniform layers, texture unit and shader stack exactly as found; it adds one draw call per mesh reached and their vertex total; it logs its `enter`, its children's visits and its `exit`, or one draw for a mesh |
| Scene.VisitChildren | src/scene.js:12-14 | visiting the children in order restores every store, adds up their meshes and concatenates their logs |
| Scene.Draw | src/scene.js:61-69 | statistics are zeroed before the root is visited, so they count exactly this frame's meshes |
| Scene.LookupIsFlattened | src/scene.js:70-75 | a read down the prototype chain finds exactly what the layers merged outermost-first hold |
| Scene.LookupAfterPush | src/scene.js:70-72 | a pushed layer answers for the names it defines and defers to its parent for all others |
| Scene.StackRoundTrips | src/scene.js:70-87 | each pop undoes its push; `getShader` returns the shader just pushed |
| Scene.EnterUniformsScopes | src/scene.js:35-36 | inside a uniforms node its uniforms shadow inherited ones, and other names read as outside |
| Scene.TextureUnitsAreFresh | src/scene.js:29-34 | the units a node hands out are strictly increasing and lie between the old and the new counter |
| Scene.TransformComposes | src/scene.js:201-210 | inside a transform, modelTransform is mul(parent, matrix) when a truthy parent value exists, else the matrix; other names are unchanged |
| Scene.MaterialSelectsShader | src/scene.js:97-99 | inside a material, `getShader` returns its shader |
| Scene.EnterExitRestores | src/scene.js:20-47 | for every node kind, `exit` undoes `enter` exactly |
| Scene.DrawIsRepeatable | src/scene.js:61-69 | drawing the same tree twice gives the same stores and statistics |
| Scene.VisitLogNests | src/scene.js:9-16 | in a visit's log a node is entered first and exited last, and everything between lies strictly below it; no event repeats; a mesh is a single draw |
| Scene.VisitChildrenLogNests | src/scene.js:12-14 | every event of the children's log lies below one of the children visited, without repetition |
| Scene.VisitChildrenLogOrdered | src/scene.js:12-14 | the children's logs come in child index order, and every child is entered, or drawn if a mesh |
| Scene.EnterAsWrittenThrows | src/scene.js:28-100 | as written, the uniforms and material `enter` leave the graph changed and make none of the node's uniforms visible; the intended `enter` makes every uniform of the node visible |
| Scenario.CubeMesh | src/mesh.js:19-65 | a mesh built on a cube's triangle list has a 108-number VBO |
| Scenario.CubesFrom | src/scene.js:298-299 | a run of cube meshes adds 36 vertices per cube |
| Scenario.CubeFrame | src/scene.js:61-69 | a frame of n cubes under a material and a transform records n draw calls and 36·n vertices, and restores the graph's stores |

## Left out

- Ids.Next: the JS counter is a double. The model's integers are exact, which agrees with it everywhere below `MAX_SAFE_INTEGER`, the only range the generator reaches.
- Events: callbacks are tokens, so the model does not cover callbacks that throw or call back into the bus during `emit`.
- Clock: `requestAnimationFrame` and `performance.now` are outside the model. Readings are parameters and the scheduler is a count of pending callbacks.
- Clock.Fire: requires a pending callback, because the scheduler can only run one that was scheduled.
- Input: the DOM listeners of `bind` (src/input.js:36-70) are outside the model. So is the object `makeInputHandler` returns: it captures `keys`, `mouse` and `hasFocus` once and goes stale after the next reset. Only the internal state is modelled.
- Input.FromCharCode: code units stand for the one-character strings. The conversion of non-integer or negative key codes through ToUint16 is reduced to Euclidean mod 65536 on integers.
- Mesh: `rotate` and `getTransform` are outside the model, because they are DOMMatrix floating-point state.
- ShaderProgram: `createShader` and `createProgram` are outside the model; they are compile and link wrappers around the GL. `makeShaderProgram` returns nothing (src/shaderManager.js:126), so the model treats its inner functions as the program's operations. `makeShaderManager` is an empty stub. `use()` is a GL call.
- ShaderProgram.WriteOne: a uniform whose value changes kind between calls is not modelled as the source does it. Example: a number cached under a name that later holds a vector. A non-array cache entry counts as "no cached array".
- ShaderProgram.WriteOne: empty arrays are outside the model, because the vector type excludes them. In the source they fall through to the scalar branch.
- ShaderProgram.WriteOne: Float32 rounding of cached copies and NaN comparisons are outside the model.
- ShaderProgram.WriteOne: a texture's `equals` and `set` are modelled as identity of a handle.
- ShaderProgram.Uniforms: `values` is a finite map with its own key order. The source's `for…in`/`Object.keys` distinction is kept only as `keys` versus `lookup`.
- Scene.MeshVisit: records the statistics only. The model leaves out:
  - `getShader` and `getAttribLocation('position')`;
  - `shader.uniforms(graph.uniforms)`;
  - the VBO binding and the draw call;
  - the TypeError when no shader is on the stack.
- Scene.MeshVisit: `gl` is not bound anywhere in src/scene.js. As written, `makeSimpleMesh` throws a ReferenceError at :283 unless a mode is passed. Its `visit` throws at :293-294, before it reaches the statistics at :298-299. The model keeps only the statistics, as evidently intended.
- Scene.EnterTransform: src/scene.js never binds `mat4`; only src/mouseController.js imports gl-matrix, and it binds it as `glMatrix`. As written, `makeTransform` throws a ReferenceError while building its matrix (:199-200), and so does `enter` at :204. The model takes `mat4.multiply` as the parameter `mul` and the node's matrix as given.
- Scene: as written, src/scene.js does not parse. The object literal of `makeMirror` (:226-237) writes `name = value` instead of `name: value`, which is a SyntaxError. None of the module can run, and the model describes the code as evidently intended.
- Scene.Enter: `shader.use()` and the textures' `bindTexture`/`unbindTexture` are GL calls and are outside the model. Likewise, a transform's reusable `aux` buffer is not modelled: two visits of one transform share it.
- Scene.EnterUniformsAsWritten: a thrown exception ends the whole `draw`, so the model returns the graph as it was left and stops there.
- Scene.PopUniforms: requires a layer to pop. Popping the graph's base object would reach `Object.prototype`, which the model does not represent, and no traversal does it.
- Scene: camera, skybox, mirror, post-process and render-target nodes (src/scene.js:108-195, 216-278) are outside the model. They are matrix and GL code with undefined identifiers.
- Scene: a mesh is modelled as a leaf. `makeSimpleMesh` passes `children` to `makeNode` (src/scene.js:281), but that identifier is not declared there, so every call throws a ReferenceError. Its `visit` never descends.
- Scenario.CubeMesh: the VBO is taken to hold the 108 numbers of the triangle list. `createVBO` comes from src/webglUtils.js, which is not part of this model. The scene imports `mesh` as a default export that src/mesh.js does not provide.
- Events: the payload is a number. In JS any value is passed through to the handlers unchanged.
- Clock, Input: readings and coordinates are exact reals. JS doubles round, which the model does not represent.
- Scene: a material built without children is outside the model. Its `this.children` is `undefined`, so `append` on it would throw.

## Findings

| source | as written | input that shows it | evidently intended | confidence | as-written member | corrected member |
|---|---|---|---|---|---|---|
| src/events.js:34-36 | `off` calls `.filter` on the event's handler list even after another `off` of the same callback deleted it | `on("tick", f)`, `on("tick", f)`, `off(1)`, `off(2)`: the second `off` throws a TypeError and subscription 2 is never removed | a missing list reads as empty and the subscription is deleted | high, not executed | Events.OffAsWritten | Events.Off |
| src/shaderManager.js:68 | `j` and `l` are read after the `for (let j…)` loop that scopes them | a 3-vector uploaded twice: the second upload throws a ReferenceError | skip when element-wise equal, else copy in place and write | high, not executed | ShaderProgram.WriteOneAsWritten | ShaderProgram.WriteOne |
| src/scene.js:36 | `extend` is not defined anywhere | entering any uniforms node throws a ReferenceError | copy the node's uniforms into the new top layer | high, not executed | Scene.EnterUniformsAsWritten | Scene.EnterUniforms |
| src/scene.js:100 | `scene.Uniforms` is undefined (`scene` is `{}`) | entering any material throws a TypeError | push the shader, then enter as a uniforms node | high, not executed | Scene.EnterMaterialAsWritten | Scene.EnterMaterial |
