/** The allocation hooks, any call of which may be refused. */
module Memory {
  import opened Bytes
  import opened Nodes

  /** `refuses(k)` says whether the k-th request of the run is answered with NULL. */
  class Hooks {
    const refuses: nat -> bool
    var calls: nat
    ghost var live: set<object>

    constructor (refuses: nat -> bool)
      ensures live == {} && calls == 0 && this.refuses == refuses
    {
      this.refuses := refuses;
      calls := 0;
      live := {};
    }

    /** No request was refused since the run had made `from` of them. */
    ghost predicate Granted(from: nat)
      reads this
    {
      forall k :: from <= k < calls ==> !refuses(k)
    }

    method Allocate(size: nat) returns (block: array?<byte>)
      modifies this
      ensures calls == old(calls) + 1 && (block == null <==> refuses(old(calls)))
      ensures block != null ==> fresh(block) && block.Length == size && live == old(live) + {block}
      ensures block == null ==> live == old(live)
    {
      block := null;
      if !refuses(calls) {
        block := new byte[size];
        live := live + {block};
      }
      calls := calls + 1;
    }

    /** cJSON_New_Item: a cleared node. */
    method NewItem() returns (item: Node?)
      modifies this
      ensures calls == old(calls) + 1 && (item == null <==> refuses(old(calls)))
      ensures item != null ==> fresh(item) && live == old(live) + {item}
      ensures item != null ==> item.next == null && item.prev == null && item.child == null
      ensures item != null ==> item.kind == Invalid && !item.isReference && !item.nameIsConst
      ensures item != null ==> item.name == null && item.valuestring == null && item.valueint == 0 && item.valuedouble == 0.0
      ensures item == null ==> live == old(live)
    {
      item := null;
      if !refuses(calls) {
        item := new Node();
        live := live + {item};
      }
      calls := calls + 1;
    }

    /** On refusal the old block stays; otherwise its contents move to the new one. */
    method Reallocate(block: array<byte>, size: nat) returns (moved: array?<byte>)
      requires block in live
      modifies this
      ensures calls == old(calls) + 1 && (moved == null <==> refuses(old(calls)))
      ensures moved != null ==> fresh(moved) && moved.Length == size && live == old(live) - {block} + {moved}
      ensures moved != null ==> forall i :: 0 <= i < size && i < block.Length ==> moved[i] == block[i]
      ensures moved == null ==> live == old(live)
    {
      moved := null;
      if !refuses(calls) {
        moved := new byte[size];
        forall i | 0 <= i < size && i < block.Length {
          moved[i] := block[i];
        }
        live := live - {block} + {moved};
      }
      calls := calls + 1;
    }

    /** Only a live block may be released, so none is released twice. */
    method Deallocate(block: object)
      requires block in live
      modifies this
      ensures calls == old(calls) && live == old(live) - {block}
    {
      live := live - {block};
    }
  }
}
