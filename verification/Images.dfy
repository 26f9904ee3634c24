/** Image records that share backing storage: tagging copies a record, deleting one of several refs
    only untags, deleting the last destroys the backing. */
module Images {
  import opened Wrappers
  import opened Text

  datatype Resource = Tarball(path: string) | Dataset(name: string) | TemplateCt(vmid: int) | LegacyCt(name: string)

  datatype Image = Image(ref: string, id: string, tarball: string, dataset: string, vmid: int, template: string)

  /** What RemoveImage destroys for a record. */
  function Backing(img: Image): set<Resource> {
    if img.tarball != "" then
      {Tarball(img.tarball)}
      + (if img.dataset != "" then {Dataset(img.dataset)} else {})
      + (if img.vmid > 0 then {TemplateCt(img.vmid)} else {})
    else if img.vmid > 0 then {TemplateCt(img.vmid)}
    else {LegacyCt(img.template)}
  }

  datatype State = State(images: map<string, Image>, disk: set<Resource>)

  // ----- Looking up a ref -----

  function AfterSlash(s: string): string {
    if s == "" || s[|s| - 1] == '/' then "" else AfterSlash(s[..|s| - 1]) + [s[|s| - 1]]
  }

  function TrimPrefix(s: string, p: string): string {
    if p <= s then s[|p|..] else s
  }

  /** bareImageRef */
  function Bare(ref: string): string {
    var i := Index(ref, "/");
    var ref := if i != -1 && ('.' in ref[..i] || ':' in ref[..i]) then ref[i + 1..] else ref;
    var ref := TrimPrefix(ref, "library/");
    if '@' !in ref && ':' !in AfterSlash(ref) then ref + ":latest" else ref
  }

  /** A lookup may give this record: the exact one, or else any whose bare ref is the same. */
  ghost predicate Finds(images: map<string, Image>, ref: string, img: Image) {
    if ref in images then img == images[ref]
    else exists k :: k in images && Bare(k) == Bare(ref) && images[k] == img
  }

  /** What the steps below rest on: an exact ref gives its record, any other may give any record. */
  ghost predicate MayFind(images: map<string, Image>, ref: string, img: Image) {
    if ref in images then img == images[ref] else img in images.Values
  }

  ghost predicate Unknown(images: map<string, Image>, ref: string) {
    ref !in images && forall k :: k in images ==> Bare(k) != Bare(ref)
  }

  function RefsOf(images: map<string, Image>, id: string): set<string> {
    set k | k in images && images[k].id == id
  }

  // ----- Steps -----

  /** A tag names the record its lookup gave; a delete the two its lookups gave, whether it was refused
      because a container uses the image, and the resources whose destruction fails. */
  datatype Event =
    | Tag(name: string, src: Image, newRef: string)
    | Delete(ref: string, img: Image, rec: Image, refused: bool, stubborn: set<Resource>)

  ghost predicate Enabled(s: State, e: Event) {
    match e
    case Tag(name, src, _) => MayFind(s.images, NormalizeRef(name), src)
    case Delete(ref, img, rec, _, _) => MayFind(s.images, ref, img) && MayFind(s.images, ref, rec)
  }

  /** More than one ref has the image's ID. */
  function OneOfSeveral(s: State, img: Image): bool {
    img.id != "" && |RefsOf(s.images, img.id)| > 1
  }

  /** Manager.RemoveImage: with a tarball every removal is best effort; without, a failing one keeps the
      record, and a legacy template that is gone counts as removed. */
  function Destroy(s: State, ref: string, rec: Image, stubborn: set<Resource>): State {
    var failed := Backing(rec) * stubborn;
    if rec.tarball != "" then State(s.images - {ref}, s.disk - (Backing(rec) - stubborn))
    else if rec.vmid > 0 then if failed != {} then s else State(s.images - {ref}, s.disk - Backing(rec))
    else if failed * s.disk != {} then s
    else State(s.images - {ref}, s.disk - Backing(rec))
  }

  function Step(s: State, e: Event): State {
    match e
    case Tag(_, src, newRef) => s.(images := s.images[newRef := src.(ref := newRef)])
    case Delete(ref, img, rec, refused, stubborn) =>
      if OneOfSeveral(s, img) then s.(images := s.images - {ref})
      else if refused then s
      else Destroy(s, ref, rec, stubborn)
  }

  /** An untag that names a record only by its bare ref removes nothing, although it is accepted. */
  lemma UntagsExactly(s: State, e: Event)
    requires e.Delete? && OneOfSeveral(s, e.img)
    ensures Step(s, e).disk == s.disk
    ensures Step(s, e).images.Keys == s.images.Keys - {e.ref}
    ensures Step(s, e) == s <==> e.ref !in s.images
  {
    if e.ref !in s.images {
      assert s.images - {e.ref} == s.images;
    } else {
      assert e.ref !in Step(s, e).images;
    }
  }

  // ----- The handlers -----

  datatype Answer = NotFound | BadRequest | Conflict | Accepted | Failed

  class Store {
    var images: map<string, Image>
    var disk: set<Resource>

    ghost function View(): State
      reads this
    {
      State(images, disk)
    }

    method GetImage(ref: string) returns (r: Option<Image>)
      ensures r.Some? ==> Finds(images, ref, r.value)
      ensures r.None? <==> Unknown(images, ref)
    {
      if ref in images {
        return Some(images[ref]);
      }
      var todo := images.Keys;
      while todo != {}
        invariant todo <= images.Keys
        invariant forall k :: k in images && k !in todo ==> Bare(k) != Bare(ref)
        decreases |todo|
      {
        var k :| k in todo;
        if Bare(k) == Bare(ref) {
          return Some(images[k]);
        }
        todo := todo - {k};
      }
      return None;
    }

    /** tagImage. The record is in the store even if the store cannot be saved. */
    method TagImage(name: string, repo: string, tag: string, saved: bool) returns (a: Answer, ghost e: Option<Event>)
      modifies this
      ensures e.None? ==> View() == old(View())
      ensures e.Some? ==> Enabled(old(View()), e.value) && View() == Step(old(View()), e.value)
      ensures e.Some? ==> e.value.Tag? && e.value.name == name && Finds(old(images), NormalizeRef(name), e.value.src)
      ensures e.Some? ==> e.value.newRef == repo + ":" + (if tag == "" then "latest" else tag)
      ensures a == NotFound <==> Unknown(old(images), NormalizeRef(name))
      ensures a == BadRequest <==> !Unknown(old(images), NormalizeRef(name)) && repo == ""
      ensures e.Some? <==> a == Accepted || a == Failed
      ensures a == Accepted ==> saved
      ensures a == Failed ==> !saved
    {
      var src := GetImage(NormalizeRef(name));
      if src.None? {
        return NotFound, None;
      }
      if repo == "" {
        return BadRequest, None;
      }
      var newRef := repo + ":" + (if tag == "" then "latest" else tag);
      images := images[newRef := src.value.(ref := newRef)];
      return if saved then Accepted else Failed, Some(Tag(name, src.value, newRef));
    }

    /** removeImage. byId is the ref of the record that findImageByID gives for the name, if any. */
    method RemoveImage(name: string, byId: Option<string>, inUse: bool, force: bool, stubborn: set<Resource>,
                       saved: bool)
      returns (a: Answer, ghost e: Option<Event>)
      requires byId.Some? ==> byId.value in images
      modifies this
      ensures e.None? <==> Unknown(old(images), NormalizeRef(name)) && byId.None?
      ensures e.None? ==> View() == old(View()) && a == if force then Accepted else NotFound
      ensures e.Some? ==> Enabled(old(View()), e.value) && e.value.Delete? && View() == Step(old(View()), e.value)
      ensures e.Some? ==> Finds(old(images), e.value.ref, e.value.img) && Finds(old(images), e.value.ref, e.value.rec)
      ensures e.Some? ==> e.value.ref == NormalizeRef(name) || e.value.ref in old(images)
      ensures a == Conflict <==> e.Some? && e.value.refused
      ensures e.Some? && !OneOfSeveral(old(View()), e.value.img) ==> (e.value.refused <==> inUse && !force)
      ensures a == Accepted && e.Some? && !force ==> saved && images == old(images) - {e.value.ref}
    {
      var ref := NormalizeRef(name);
      var known := GetImage(ref);
      if known.None? {
        if byId.None? {
          return if force then Accepted else NotFound, None;
        }
        ref := byId.value;
      }
      var img := GetImage(ref);
      if img.value.id != "" && |RefsOf(images, img.value.id)| > 1 {
        images := images - {ref};
        return if saved then Accepted else Failed, Some(Delete(ref, img.value, img.value, false, stubborn));
      }
      if !force && inUse {
        return Conflict, Some(Delete(ref, img.value, img.value, true, stubborn));
      }
      var rec := GetImage(ref);
      a := DestroyImage(ref, rec.value, stubborn, saved);
      a := if force then Accepted else a;
      e := Some(Delete(ref, img.value, rec.value, false, stubborn));
    }

    /** Manager.RemoveImage, on the record its lookup gave. */
    method DestroyImage(ref: string, rec: Image, stubborn: set<Resource>, saved: bool) returns (a: Answer)
      modifies this
      ensures View() == Destroy(old(View()), ref, rec, stubborn)
      ensures a == Accepted || a == Failed
      ensures a == Accepted ==> saved && images == old(images) - {ref}
      ensures a == Failed ==> !saved || View() == old(View())
    {
      var done := if saved then Accepted else Failed;
      if rec.tarball != "" {
        if Tarball(rec.tarball) !in stubborn {
          disk := disk - {Tarball(rec.tarball)};
        }
        if rec.dataset != "" && Dataset(rec.dataset) !in stubborn {
          disk := disk - {Dataset(rec.dataset)};
        }
        if rec.vmid > 0 && TemplateCt(rec.vmid) !in stubborn {
          disk := disk - {TemplateCt(rec.vmid)};
        }
        images := images - {ref};
        return done;
      }
      if rec.vmid > 0 {
        if TemplateCt(rec.vmid) in stubborn {
          assert TemplateCt(rec.vmid) in Backing(rec) * stubborn;
          return Failed;
        }
        disk, images := disk - {TemplateCt(rec.vmid)}, images - {ref};
        return done;
      }
      if LegacyCt(rec.template) in disk {
        if LegacyCt(rec.template) in stubborn {
          assert LegacyCt(rec.template) in Backing(rec) * stubborn * disk;
          return Failed;
        }
        disk := disk - {LegacyCt(rec.template)};
      }
      images := images - {ref};
      return done;
    }
  }

  // ----- What every step keeps -----

  predicate Keyed(s: State) {
    forall k :: k in s.images ==> s.images[k].ref == k
  }

  /** Every record's backing exists. */
  predicate Backed(s: State) {
    forall k :: k in s.images ==> Backing(s.images[k]) <= s.disk
  }

  /** Records share backing only if they share an ID. */
  ghost predicate SharedById(s: State) {
    forall j, k :: j in s.images && k in s.images && j != k && Backing(s.images[j]) * Backing(s.images[k]) != {}
                   ==> s.images[j].id == s.images[k].id != ""
  }

  ghost predicate Inv(s: State) {
    Keyed(s) && Backed(s) && SharedById(s)
  }

  lemma TagKept(s: State, e: Event)
    requires Inv(s) && e.Tag? && Enabled(s, e)
    ensures Inv(Step(s, e)) <==> e.src.id != "" || e.newRef == e.src.ref
  {
    var t := Step(s, e);
    var k := e.src.ref;
    assert k in s.images && s.images[k] == e.src;
    assert Backing(e.src.(ref := e.newRef)) == Backing(e.src) != {};
    if e.src.id != "" || e.newRef == k {
      forall i, j | i in t.images && j in t.images && i != j && Backing(t.images[i]) * Backing(t.images[j]) != {}
        ensures t.images[i].id == t.images[j].id != ""
      {
        TagShares(s, e, i, j);
      }
    } else {
      assert t.images[k] == e.src && t.images[e.newRef].id == "";
      assert Backing(t.images[k]) * Backing(t.images[e.newRef]) == Backing(e.src);
    }
  }

  lemma TagShares(s: State, e: Event, i: string, j: string)
    requires Inv(s) && e.Tag? && e.src.ref in s.images && s.images[e.src.ref] == e.src
    requires (e.src.id != "" || e.newRef == e.src.ref)
    requires var t := Step(s, e);
             i in t.images && j in t.images && i != j && Backing(t.images[i]) * Backing(t.images[j]) != {}
    ensures var t := Step(s, e); t.images[i].id == t.images[j].id != ""
  {
    var k := e.src.ref;
    assert i != e.newRef ==> i in s.images && Step(s, e).images[i] == s.images[i];
    assert j != e.newRef ==> j in s.images && Step(s, e).images[j] == s.images[j];
    assert Backing(e.src.(ref := e.newRef)) == Backing(e.src);
  }

  /** The image is the last with its ID, so nothing else shares its backing. */
  lemma LastIsAlone(s: State, ref: string, k: string)
    requires Inv(s) && ref in s.images && k in s.images && k != ref && !OneOfSeveral(s, s.images[ref])
    ensures Backing(s.images[k]) !! Backing(s.images[ref])
  {
    var img := s.images[ref];
    if Backing(s.images[k]) * Backing(img) != {} {
      assert {ref, k} <= RefsOf(s.images, img.id);
      TwoElements(RefsOf(s.images, img.id), ref, k);
    }
  }

  lemma TwoElements(s: set<string>, a: string, b: string)
    requires a in s && b in s && a != b
    ensures |s| > 1
  {
    assert |s - {a}| == |s| - 1 && b in s - {a};
  }

  lemma DeleteKept(s: State, e: Event)
    requires Inv(s) && e.Delete? && Enabled(s, e) && e.ref in s.images
    ensures Inv(Step(s, e))
  {
    var t := Step(s, e);
    if !OneOfSeveral(s, e.img) {
      forall k | k in t.images
        ensures Backing(t.images[k]) <= t.disk
      {
        if k != e.ref {
          LastIsAlone(s, e.ref, k);
        }
      }
    }
  }

  lemma LooseDestroyHarms(s: State, ref: string, rec: Image, stubborn: set<Resource>, k: string, r: Resource)
    requires Inv(s) && ref !in s.images && k in s.images && s.images[k] == rec
    requires r in Backing(rec) && r !in stubborn
    ensures !Backed(Destroy(s, ref, rec, stubborn))
  {
    var t := Destroy(s, ref, rec, stubborn);
    assert rec.tarball == "" ==> Backing(rec) == {r};
    assert rec.tarball == "" ==> Backing(rec) * stubborn == {};
    assert t.images[k] == rec && r !in t.disk;
  }

  lemma StubbornStays(s: State, ref: string, rec: Image, stubborn: set<Resource>)
    requires ref !in s.images && Backing(rec) <= s.disk && Backing(rec) <= stubborn
    ensures Destroy(s, ref, rec, stubborn) == s
  {
    assert s.images - {ref} == s.images;
    assert Backing(rec) - stubborn == {} && Backing(rec) * stubborn == Backing(rec);
    assert Backing(rec) * stubborn * s.disk == Backing(rec);
    assert s.disk - {} == s.disk;
  }

  /** A delete by a ref that is no key leaves the record it destroyed behind. */
  lemma LooseDeleteKept(s: State, e: Event)
    requires Inv(s) && e.Delete? && Enabled(s, e) && e.ref !in s.images
    ensures Inv(Step(s, e)) <==> OneOfSeveral(s, e.img) || e.refused || Backing(e.rec) <= e.stubborn
  {
    assert s.images - {e.ref} == s.images;
    var k :| k in s.images && s.images[k] == e.rec;
    if !OneOfSeveral(s, e.img) && !e.refused {
      if Backing(e.rec) <= e.stubborn {
        StubbornStays(s, e.ref, e.rec, e.stubborn);
      } else {
        var r :| r in Backing(e.rec) && r !in e.stubborn;
        LooseDestroyHarms(s, e.ref, e.rec, e.stubborn, k, r);
      }
    }
  }

  /** What a caller must not do: tag an image that has no ID, or delete the last ref of an image by
      anything but its exact ref or its ID. */
  ghost predicate Breaks(s: State, e: Event) {
    match e
    case Tag(_, src, newRef) => src.id == "" && newRef != src.ref
    case Delete(ref, img, rec, refused, stubborn) =>
      ref !in s.images && !OneOfSeveral(s, img) && !refused && !(Backing(rec) <= stubborn)
  }

  /** A step keeps the invariant just when it is not one of those. */
  lemma InvKeptExactly(s: State, e: Event)
    requires Inv(s) && Enabled(s, e)
    ensures Inv(Step(s, e)) <==> !Breaks(s, e)
  {
    if e.Tag? {
      TagKept(s, e);
    } else if e.ref in s.images {
      DeleteKept(s, e);
    } else {
      LooseDeleteKept(s, e);
    }
  }

  /** A run of enabled steps that break nothing. */
  ghost predicate Careful(s: State, es: seq<Event>) {
    es != [] ==>
      && Careful(s, es[..|es| - 1])
      && Enabled(Run(s, es[..|es| - 1]), es[|es| - 1])
      && !Breaks(Run(s, es[..|es| - 1]), es[|es| - 1])
  }

  function Run(s: State, es: seq<Event>): State {
    if es == [] then s else Step(Run(s, es[..|es| - 1]), es[|es| - 1])
  }

  /** Over every careful run of tags and deletes every surviving record's backing exists. */
  lemma {:induction false} SurvivorsAreBacked(s: State, es: seq<Event>)
    requires Inv(s) && Careful(s, es)
    ensures Inv(Run(s, es)) && Backed(Run(s, es))
  {
    if es != [] {
      SurvivorsAreBacked(s, es[..|es| - 1]);
      InvKeptExactly(Run(s, es[..|es| - 1]), es[|es| - 1]);
    }
  }

  /** Backing is destroyed only with the last ref of its ID, and then no record needs it. */
  lemma DestroyedWithLast(s: State, e: Event, r: Resource)
    requires Inv(s) && Enabled(s, e) && !Breaks(s, e) && r in s.disk && r !in Step(s, e).disk
    ensures e.Delete? && r in Backing(e.rec) && e.ref !in Step(s, e).images
    ensures e.rec.id != "" ==> RefsOf(Step(s, e).images, e.rec.id) == {}
    ensures forall k :: k in Step(s, e).images ==> r !in Backing(Step(s, e).images[k])
  {
    InvKeptExactly(s, e);
    if e.ref in s.images {
      forall k | k in Step(s, e).images
        ensures e.rec.id != "" ==> Step(s, e).images[k].id != e.rec.id
      {
        if s.images[k].id == e.rec.id != "" {
          TwoElements(RefsOf(s.images, e.rec.id), e.ref, k);
        }
      }
    } else {
      LooseDeleteKept(s, e);
    }
  }

  // ----- The two ways it goes wrong -----

  /** In any store, an image without an ID, tagged and then deleted by its own ref, leaves the new ref
      unbacked. */
  lemma TaggedWithoutId(s: State, e: Event)
    requires Inv(s) && Enabled(s, e) && e.Tag? && Breaks(s, e)
    ensures var tagged := Step(s, e);
            var delete := Delete(e.src.ref, e.src, e.src, false, {});
            && Enabled(tagged, delete) && !Breaks(tagged, delete)
            && e.newRef in Step(tagged, delete).images && !Backed(Step(tagged, delete))
  {
    var tagged := Step(s, e);
    var src := e.src;
    var delete := Delete(src.ref, src, src, false, {});
    assert src.ref in s.images && tagged.images[src.ref] == src;
    assert tagged.images[e.newRef] == src.(ref := e.newRef);
    var r :| r in Backing(src);
    assert Backing(src) * {} == {} && Backing(src) - {} == Backing(src);
    assert r !in Step(tagged, delete).disk && r in Backing(src.(ref := e.newRef));
  }

  ghost predicate LeadsToLoss(s: State, es: seq<Event>) {
    Careful(s, es) && !Backed(Run(s, es))
  }

  /** A tag or delete lets some continuation that breaks nothing more leave a listed image without its
      backing exactly when it is one of those that a caller must not do. */
  lemma KeptExactly(s: State, e: Event)
    requires Inv(s) && Enabled(s, e)
    ensures Breaks(s, e) <==> exists es: seq<Event> :: LeadsToLoss(Step(s, e), es)
  {
    var t := Step(s, e);
    if !Breaks(s, e) {
      InvKeptExactly(s, e);
      forall es: seq<Event>
        ensures !LeadsToLoss(t, es)
      {
        if Careful(t, es) {
          SurvivorsAreBacked(t, es);
        }
      }
    } else if e.Tag? {
      TaggedWithoutId(s, e);
      var delete := [Delete(e.src.ref, e.src, e.src, false, {})];
      RunOne(t, delete[0]);
      assert LeadsToLoss(t, delete);
    } else {
      LooseDeleteLoses(s, e);
      var none: seq<Event> := [];
      assert LeadsToLoss(t, none);
    }
  }

  lemma RunOne(s: State, e: Event)
    ensures Run(s, [e]) == Step(s, e)
    ensures Enabled(s, e) && !Breaks(s, e) ==> Careful(s, [e])
  {
    assert [e][..0] == [];
  }

  lemma LooseDeleteLoses(s: State, e: Event)
    requires Inv(s) && Enabled(s, e) && e.Delete? && Breaks(s, e)
    ensures !Backed(Step(s, e))
  {
    var k :| k in s.images && s.images[k] == e.rec;
    var r :| r in Backing(e.rec) && r !in e.stubborn;
    LooseDestroyHarms(s, e.ref, e.rec, e.stubborn, k, r);
  }

  lemma BareLibrary(name: string)
    requires '/' !in name && ':' in name
    ensures Bare("library/" + name) == Bare(name)
  {
    var full := "library/" + name;
    forall k: nat
      ensures !OccursAt(name, "/", k)
    {
      assert k < |name| ==> name[k + 0] != "/"[0];
    }
    assert full[7] == '/' && full[..7] == "library" && full[8..] == name;
    forall k: nat | k < 7
      ensures !OccursAt(full, "/", k)
    {
      assert full[k + 0] == "library"[k] != "/"[0];
    }
    assert OccursAt(full, "/", 7);
    FirstIsIndex(full, "/", 7);
  }

  /** An image stored under library/, deleted by its short name, loses its backing and stays listed. */
  lemma DeletedByShortName(name: string, img: Image)
    requires '/' !in name && ':' in name && img.ref == "library/" + name && img.tarball != ""
    ensures var s := State(map[img.ref := img], Backing(img));
            var e := Delete(name, img, img, false, {});
            Inv(s) && Finds(s.images, name, img) && Enabled(s, e) && img.ref in Step(s, e).images && !Backed(Step(s, e))
  {
    var s := State(map[img.ref := img], Backing(img));
    var e := Delete(name, img, img, false, {});
    BareLibrary(name);
    assert '/' in img.ref by {
      assert img.ref[7] == '/';
    }
    assert RefsOf(s.images, img.id) == {img.ref};
    assert s.images[img.ref] == img;
    assert Enabled(s, e);
    LooseDeleteKept(s, e);
    assert Tarball(img.tarball) in Backing(img);
    assert s.images - {name} == s.images;
  }
}
