/** The shared document and the two capabilities the handler takes from
    outside: the JSON-patch engine and the canonical hash. */
module Document {
  import opened Wrappers

  /** Every field of a dataset other than `samples`; never inspected. */
  type Fields(!new)

  /** One entry of the `samples` list; never inspected. */
  type Sample(!new)

  /** One JSON-patch operation (add, remove, replace, move, copy, test). */
  type Op(!new)

  /** The digest the canonical hash produces; compared for equality only. */
  type Hash(==)

  /** A dataset, seen as `{ ...fields, samples }`: the spreads of the
      handler only ever replace the `samples` list and keep the rest. */
  datatype Doc = Doc(fields: Fields, samples: seq<Sample>)

  /** The value held in the handler's `state` field: `None` is the `null`
      it starts with. */
  type State = Option<Doc>

  /** A JSON patch: an ordered list of operations. */
  type Patch = seq<Op>

  /** The patch engine and the hash, as functions supplied from outside:
      `diff` is `rfc6902.createPatch`, `apply` is `applySeamlessPatch` and
      `hash` is the server's canonical hash. */
  datatype Engine = Engine(
    diff: (State, State) -> Patch,
    apply: (State, Patch) -> State,
    hash: State -> Hash)

  /** What the handler may rely on from a correct engine: applying the diff
      of two states to the first yields the second, and a state differs from
      itself by the empty patch. */
  ghost predicate Lawful(e: Engine) {
    && (forall a, b :: e.apply(a, e.diff(a, b)) == b)
    && (forall a :: e.diff(a, a) == [])
  }

  /** The state reached by applying the patches of `ps` in order to `s`. */
  function ApplyAll(e: Engine, s: State, ps: seq<Patch>): State
    decreases |ps|
  {
    if |ps| == 0 then s else ApplyAll(e, e.apply(s, ps[0]), ps[1..])
  }

  /** For a lawful engine the diff is empty exactly when nothing changed. */
  lemma EmptyDiffIffEqual(e: Engine, a: State, b: State)
    requires Lawful(e)
    ensures |e.diff(a, b)| == 0 <==> a == b
  {
    if |e.diff(a, b)| == 0 {
      calc {
        b;
        e.apply(a, e.diff(a, b));
        { assert e.diff(a, b) == [] == e.diff(a, a); }
        e.apply(a, e.diff(a, a));
        a;
      }
    }
  }
}
