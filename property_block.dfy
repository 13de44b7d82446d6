/**
 * The property-block record and the pure operations on it: building a block
 * from a dropdown `Property`, and removing every block that carries a given id
 * (the `filter` used both on the service's block list and on an expression
 * block's property references).
 */
module PropertyBlocks {

  /** A property's value, represented by its printed form (`value.toString()`). */
  type Value = string

  /** What the property dropdown emits: a name, a type tag and a value. */
  datatype Property = Property(name: string, kind: string, value: Value)

  /** A property block; `kind` is the source's `type` field. */
  datatype PropertyBlock = PropertyBlock(id: string, name: string, kind: string, value: Value)

  /** The fields of a block that the insertion code reads when it treats the block as a `Property`. */
  function PropertyOf(b: PropertyBlock): Property {
    Property(b.name, b.kind, b.value)
  }

  /** `createPropertyBlock`: a block with a fresh id carrying the property's name, type and value. */
  function CreatePropertyBlock(p: Property, freshId: string): (b: PropertyBlock)
    ensures PropertyOf(b) == p
    ensures b.id == freshId
  {
    PropertyBlock(freshId, p.name, p.kind, p.value)
  }

  /** `blocks.filter(b => b.id !== id)`. */
  function WithoutId(blocks: seq<PropertyBlock>, id: string): (r: seq<PropertyBlock>)
    ensures |r| <= |blocks|
    ensures forall b :: b in r <==> b in blocks && b.id != id
  {
    if blocks == [] then []
    else if blocks[0].id == id then WithoutId(blocks[1..], id)
    else [blocks[0]] + WithoutId(blocks[1..], id)
  }

  /** Filtering distributes over concatenation: the kept blocks stay in their order. */
  lemma {:induction false} WithoutIdConcat(a: seq<PropertyBlock>, b: seq<PropertyBlock>, id: string)
    ensures WithoutId(a + b, id) == WithoutId(a, id) + WithoutId(b, id)
  {
    if a != [] {
      assert (a + b)[1..] == a[1..] + b;
      WithoutIdConcat(a[1..], b, id);
    } else {
      assert a + b == b;
    }
  }

  /** When no block carries the id, nothing is removed. */
  lemma {:induction false} WithoutAbsentId(blocks: seq<PropertyBlock>, id: string)
    requires forall i :: 0 <= i < |blocks| ==> blocks[i].id != id
    ensures WithoutId(blocks, id) == blocks
  {
    if blocks != [] {
      WithoutAbsentId(blocks[1..], id);
    }
  }

  /** When the id is present, at least one block goes. */
  lemma {:induction false} WithoutPresentIdShrinks(blocks: seq<PropertyBlock>, id: string, k: nat)
    requires k < |blocks| && blocks[k].id == id
    ensures |WithoutId(blocks, id)| < |blocks|
  {
    if k > 0 {
      WithoutPresentIdShrinks(blocks[1..], id, k - 1);
    }
  }
}
