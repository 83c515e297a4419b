/**
 The values the write-back cache works on: identities and their store keys, the
 five item states, streamed records, and the dictionary that stands for the store.
 */
module EvictorTypes {
  import opened Basics

  datatype RawIdent = RawIdent(category: string, name: string)

  // The store key of an identity joins its two parts with '@', so the cache is
  // only sound for categories without one (see KeyClash below).
  type Ident = i: RawIdent | '@' !in i.category witness RawIdent("", "")

  function IdentToStr(i: RawIdent): string {
    i.name + "@" + i.category
  }

  type ByteStream = seq<Byte>

  datatype State = Clean | Created | Modified | Destroyed | Dead

  datatype StreamedObject = StreamedObject(key: string, status: State, data: ByteStream)

  type Dict = map<string, ByteStream>

  /** Store keys identify identities whose categories contain no '@'. */
  lemma IdentToStrInjective(x: Ident, y: Ident)
    requires IdentToStr(x) == IdentToStr(y)
    ensures x == y
  {
    assert IdentToStr(x)[|x.name|] == '@' && IdentToStr(y)[|y.name|] == '@';
    assert x.name == IdentToStr(x)[..|x.name|] && y.name == IdentToStr(y)[..|y.name|];
    assert x.category == IdentToStr(x)[|x.name| + 1..] && y.category == IdentToStr(y)[|y.name| + 1..];
  }

  /** The restriction is exact: every identity whose category does contain an '@'
      shares its store key with a different identity. */
  lemma KeyClash(x: RawIdent)
    requires '@' in x.category
    ensures exists y: Ident :: y != x && IdentToStr(y) == IdentToStr(x)
  {
    assert x.category[0..] == x.category;
    var k := |x.category|;
    while k > 0 && '@' !in x.category[k - 1..]
      invariant 0 <= k <= |x.category|
      invariant '@' !in x.category[k..]
    {
      k := k - 1;
    }
    assert x.category[k - 1..] == [x.category[k - 1]] + x.category[k..];
    var y := RawIdent(x.category[k..], x.name + "@" + x.category[..k - 1]);
    assert IdentToStr(y) == IdentToStr(x) by {
      assert x.category == x.category[..k - 1] + "@" + x.category[k..];
    }
    assert y != x by {
      assert |y.category| < |x.category|;
    }
    var z: Ident := y;
    assert z != x && IdentToStr(z) == IdentToStr(x);
  }

  /** What saving a batch of streamed records, in order, makes of the store. */
  function SaveAll(dict: Dict, batch: seq<StreamedObject>): Dict {
    if batch == [] then
      dict
    else
      var last := batch[|batch| - 1];
      var d := SaveAll(dict, batch[..|batch| - 1]);
      match last.status
      case Created => d[last.key := last.data]
      case Modified => d[last.key := last.data]
      case Destroyed => d - {last.key}
      case _ => d
  }

  ghost predicate DistinctKeys(batch: seq<StreamedObject>) {
    forall a, b :: 0 <= a < b < |batch| ==> batch[a].key != batch[b].key
  }

  /** A batch with distinct keys puts every record's change into the store, and
      touches nothing else. */
  lemma {:induction false} SaveAllEffect(dict: Dict, batch: seq<StreamedObject>)
    requires DistinctKeys(batch)
    ensures forall k | 0 <= k < |batch| ::
              (batch[k].status in {Created, Modified} ==>
                 batch[k].key in SaveAll(dict, batch) && SaveAll(dict, batch)[batch[k].key] == batch[k].data) &&
              (batch[k].status == Destroyed ==> batch[k].key !in SaveAll(dict, batch))
    ensures forall s: string | (forall k :: 0 <= k < |batch| ==> batch[k].key != s) ::
              (s in SaveAll(dict, batch) <==> s in dict) && (s in dict ==> SaveAll(dict, batch)[s] == dict[s])
  {
    if batch != [] {
      SaveAllEffect(dict, batch[..|batch| - 1]);
    }
  }
}
