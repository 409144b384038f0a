/** Image removal: nothing is deleted unless every matched image may be. */
module ImageRemove {
  import opened Prelude

  datatype Image = Image(name: string, digest: string, layers: seq<string>)

  datatype Status = Running | Pausing | Paused | Created | Stopped | Unknown

  /** A container; `image` is None when its image cannot be found. */
  datatype Container = Container(id: string, image: Option<string>, status: Status)

  predicate Active(c: Container) {
    c.status.Running? || c.status.Pausing? || c.status.Paused?
  }

  /** Some active (or some inactive) container uses the image. */
  ghost predicate UsedBy(containers: seq<Container>, name: string, active: bool) {
    exists i :: 0 <= i < |containers| && containers[i].image == Some(name) && Active(containers[i]) == active
  }

  method GetUsedImages(containers: seq<Container>) returns (stopped: map<string, string>, running: map<string, string>)
    ensures forall n :: n in running <==> UsedBy(containers, n, true)
    ensures forall n :: n in stopped <==> UsedBy(containers, n, false)
    ensures forall n :: n in running <==>
      exists i :: 0 <= i < |containers| && containers[i].image == Some(n) && containers[i].status in {Running, Pausing, Paused}
    ensures forall n :: n in stopped <==>
      exists i :: 0 <= i < |containers| && containers[i].image == Some(n) && containers[i].status !in {Running, Pausing, Paused}
  {
    stopped, running := map[], map[];
    for i := 0 to |containers|
      invariant forall n :: n in running <==> UsedBy(containers[..i], n, true)
      invariant forall n :: n in stopped <==> UsedBy(containers[..i], n, false)
    {
      var c := containers[i];
      forall n, active ensures UsedBy(containers[..i + 1], n, active) <==>
        UsedBy(containers[..i], n, active) || (c.image == Some(n) && Active(c) == active)
      {
        UsedByOneMore(containers, i, n, active);
      }
      if c.image.None? {
        continue;
      }
      if Active(c) {
        running := running[c.image.value := c.id];
      } else {
        stopped := stopped[c.image.value := c.id];
      }
    }
    assert containers[..|containers|] == containers;
  }

  lemma UsedByOneMore(containers: seq<Container>, i: nat, n: string, active: bool)
    requires i < |containers|
    ensures UsedBy(containers[..i + 1], n, active) <==>
      UsedBy(containers[..i], n, active) || (containers[i].image == Some(n) && Active(containers[i]) == active)
  {
    var a, b := containers[..i + 1], containers[..i];
    if UsedBy(b, n, active) {
      var k :| 0 <= k < |b| && b[k].image == Some(n) && Active(b[k]) == active;
      assert a[k] == b[k];
    }
    if containers[i].image == Some(n) && Active(containers[i]) == active {
      assert a[i] == containers[i];
    }
    if UsedBy(a, n, active) {
      var k :| 0 <= k < |a| && a[k].image == Some(n) && Active(a[k]) == active;
      assert k < i ==> b[k] == a[k];
    }
  }

  /** An image must stay: an active container uses it, or an inactive one does and the request is not forced. */
  ghost predicate Protected(containers: seq<Container>, name: string, force: bool) {
    UsedBy(containers, name, true) || (!force && UsedBy(containers, name, false))
  }

  /** A container uses one of the images: one that runs, is pausing or paused, or without force any. */
  ghost predicate InUseBy(containers: seq<Container>, images: seq<Image>, force: bool) {
    exists i, j ::
      && 0 <= i < |images| && 0 <= j < |containers| && containers[j].image == Some(images[i].name)
      && (containers[j].status in {Running, Pausing, Paused} || !force)
  }

  /** The check loop of Remove. */
  method AnyProtected(containers: seq<Container>, images: seq<Image>, force: bool) returns (inUse: bool)
    ensures inUse <==> exists i :: 0 <= i < |images| && Protected(containers, images[i].name, force)
    ensures inUse <==> InUseBy(containers, images, force)
  {
    var stopped, running := GetUsedImages(containers);
    for i := 0 to |images|
      invariant forall k :: 0 <= k < i ==> !Protected(containers, images[k].name, force)
    {
      if images[i].name in running || (images[i].name in stopped && !force) {
        return true;
      }
    }
    return false;
  }

  /** In terms of the containers' states. */
  lemma ProtectedExactly(containers: seq<Container>, name: string, force: bool)
    ensures Protected(containers, name, force) <==>
      exists i :: 0 <= i < |containers| && containers[i].image == Some(name)
                  && (containers[i].status in {Running, Pausing, Paused} || !force)
  {
  }

  /** What SearchImage reports. */
  datatype Search = Search(matchCount: nat, uniqueCount: nat, images: seq<Image>)

  datatype Error = SearchFailed | NoSuchImage | Ambiguous | UsageFailed | InUse | DeleteFailed

  function NameSet(images: seq<Image>): set<string> {
    set i | 0 <= i < |images| :: images[i].name
  }

  function Untagged(images: seq<Image>): seq<string> {
    seq(|images|, i requires 0 <= i < |images| => images[i].name + ":" + images[i].digest)
  }

  function Layers(images: seq<Image>): seq<string> {
    if images == [] then [] else Layers(images[..|images| - 1]) + images[|images| - 1].layers
  }

  lemma UntaggedIs(images: seq<Image>)
    ensures |Untagged(images)| == |images|
    ensures forall i :: 0 <= i < |images| ==> Untagged(images)[i] == images[i].name + ":" + images[i].digest
  {
  }

  /** The layers of the images, image by image. */
  lemma {:induction false} LayersOfParts(a: seq<Image>, x: Image, b: seq<Image>)
    ensures Layers([]) == [] && Layers([x]) == x.layers && Layers(a + b) == Layers(a) + Layers(b)
    decreases |b|
  {
    assert [x][..0] == [];
    if b == [] {
      assert a + b == a;
    } else {
      var n := |b| - 1;
      assert (a + b)[..|a| + n] == a + b[..n] && (a + b)[|a| + n] == b[n];
      LayersOfParts(a, x, b[..n]);
    }
  }

  /** Every image can be deleted, one after the other. */
  predicate AllThere(images: seq<Image>, stored: set<string>, broken: set<string>) {
    && (forall i :: 0 <= i < |images| ==> images[i].name in stored && images[i].name !in broken)
    && (forall i, j :: 0 <= i < j < |images| ==> images[i].name != images[j].name)
  }

  /** The request is allowed and no deletion can fail. */
  ghost predicate Deletable(search: Search, force: bool, containers: seq<Container>, stored: set<string>, broken: set<string>) {
    && search.matchCount > 0 && (search.matchCount > 1 ==> force && search.uniqueCount == 1)
    && !InUseBy(containers, search.images, force) && AllThere(search.images, stored, broken)
  }

  /** The deletions before the first that failed. */
  ghost predicate StoppedAt(before: set<string>, after: set<string>, images: seq<Image>, broken: set<string>, k: nat) {
    && k < |images| && after == before - NameSet(images[..k])
    && (images[k].name !in after || images[k].name in broken)
  }

  /** Why a request that is not granted is refused, in the order of the checks. */
  ghost function FailureOf(search: Option<Search>, force: bool, containers: Option<seq<Container>>): Error {
    if search.None? then SearchFailed
    else if search.value.matchCount == 0 then NoSuchImage
    else if search.value.matchCount > 1 && !(force && search.value.uniqueCount == 1) then Ambiguous
    else if containers.None? then UsageFailed
    else if InUseBy(containers.value, search.value.images, force) then InUse
    else DeleteFailed
  }

  /** The image store; `broken` are the names whose deletion fails. */
  class ImageStore {
    var stored: set<string>

    constructor (stored: set<string>)
      ensures this.stored == stored
    {
      this.stored := stored;
    }

    /** The deletion loop of Remove. */
    method DeleteAll(images: seq<Image>, broken: set<string>) returns (ok: bool, untagged: seq<string>, deleted: seq<string>)
      modifies this
      ensures ok <==> AllThere(images, old(stored), broken)
      ensures ok ==> NameSet(images) <= old(stored) && stored == old(stored) - NameSet(images)
      ensures ok ==> untagged == Untagged(images) && deleted == Layers(images)
      ensures !ok ==> exists k: nat :: StoppedAt(old(stored), stored, images, broken, k)
    {
      untagged, deleted := [], [];
      for i := 0 to |images|
        invariant NameSet(images[..i]) <= old(stored) && stored == old(stored) - NameSet(images[..i])
        invariant untagged == Untagged(images[..i]) && deleted == Layers(images[..i])
        invariant AllThere(images[..i], old(stored), broken)
      {
        var img := images[i];
        assert images[..i + 1][..i] == images[..i] && images[..i + 1][i] == img;
        NameSetStep(images, i);
        NameSetHas(images[..i], img.name);
        if img.name in broken || img.name !in stored {
          assert StoppedAt(old(stored), stored, images, broken, i);
          return false, untagged, deleted;
        }
        stored := stored - {img.name};
        deleted := deleted + img.layers;
        untagged := untagged + [img.name + ":" + img.digest];
      }
      assert images[..|images|] == images;
      return true, untagged, deleted;
    }

    /** The two result lists come back in the opposite order from the method's signature: the
        name:digest entries first, the layer digests second. */
    method Remove(search: Option<Search>, force: bool, containers: Option<seq<Container>>, broken: set<string>)
      returns (r: Result<(seq<string>, seq<string>), Error>)
      modifies this
      ensures r.Ok? <==> search.Some? && containers.Some? && Deletable(search.value, force, containers.value, old(stored), broken)
      ensures r.Ok? ==>
        && NameSet(search.value.images) <= old(stored) && stored == old(stored) - NameSet(search.value.images)
        && r.value == (Untagged(search.value.images), Layers(search.value.images))
      ensures r.Ok? ==>
        && |r.value.0| == |search.value.images|
        && forall i :: 0 <= i < |search.value.images| ==>
             r.value.0[i] == search.value.images[i].name + ":" + search.value.images[i].digest
      ensures r.Err? ==> r.error == FailureOf(search, force, containers)
      ensures r.Err? && !r.error.DeleteFailed? ==> stored == old(stored)
      ensures r.Err? && r.error.DeleteFailed? ==> exists k: nat :: StoppedAt(old(stored), stored, search.value.images, broken, k)
    {
      if search.None? {
        return Err(SearchFailed);
      }
      var Search(matchCount, uniqueCount, images) := search.value;
      if matchCount == 0 {
        return Err(NoSuchImage);
      }
      if matchCount > 1 && !(force && uniqueCount == 1) {
        return Err(Ambiguous);
      }
      if containers.None? {
        return Err(UsageFailed);
      }
      var inUse := AnyProtected(containers.value, images, force);
      if inUse {
        return Err(InUse);
      }
      var ok, untagged, deleted := DeleteAll(images, broken);
      if !ok {
        return Err(DeleteFailed);
      }
      UntaggedIs(images);
      return Ok((untagged, deleted));
    }
  }

  lemma NameSetHas(images: seq<Image>, name: string)
    ensures name in NameSet(images) <==> exists i :: 0 <= i < |images| && images[i].name == name
  {
  }

  lemma NameSetStep(images: seq<Image>, i: nat)
    requires i < |images|
    ensures NameSet(images[..i + 1]) == NameSet(images[..i]) + {images[i].name}
    ensures images[i].name in NameSet(images)
  {
    var a, b := images[..i + 1], images[..i];
    forall n ensures n in NameSet(a) <==> n in NameSet(b) || n == images[i].name {
      if n in NameSet(b) {
        var k :| 0 <= k < |b| && b[k].name == n;
        assert a[k].name == n;
      }
      if n in NameSet(a) {
        var k :| 0 <= k < |a| && a[k].name == n;
        assert k < i ==> b[k].name == n;
      }
      assert a[i].name == images[i].name;
    }
  }
}
