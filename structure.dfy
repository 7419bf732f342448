/** The catalogue record of a structure and its list preview. */
module StructureModel {
  import opened Primitives

  /** A stored file: its public URL and creation time. */
  datatype File = File(url: string, created: int)

  /** A creator as a structure lists it. */
  datatype UserPreview = UserPreview(id: string, name: string, avatar: string)

  datatype Structure = Structure(
    id: string,
    name: string,
    files: seq<File>,
    images: seq<File>,
    summary: string,
    description: string,
    creators: seq<UserPreview>,
    created: int)

  datatype StructurePreview = StructurePreview(id: string, name: string, image: string, creator: string)

  /**
   * `Structure::to_preview`: id and name copied, the URL of the first image
   * and the name of the first creator. `None` is the `unwrap` panic on an
   * empty image or creator list.
   */
  function ToPreview(s: Structure): (r: Option<StructurePreview>)
    ensures r.Some? <==> |s.images| > 0 && |s.creators| > 0
    ensures r.Some? ==> r.value.id == s.id && r.value.name == s.name
    ensures r.Some? ==> r.value.image == s.images[0].url && r.value.creator == s.creators[0].name
  {
    if |s.images| == 0 || |s.creators| == 0 then None
    else Some(StructurePreview(s.id, s.name, s.images[0].url, s.creators[0].name))
  }

  /** `StructurePreview::from_structure`: the same conversion, taking the structure by value. */
  function FromStructure(s: Structure): (r: Option<StructurePreview>)
    ensures r == ToPreview(s)
  {
    if |s.images| == 0 || |s.creators| == 0 then None
    else Some(StructurePreview(s.id, s.name, s.images[0].url, s.creators[0].name))
  }

  /**
   * The preview reads nothing but the id, the name, the first image and the
   * first creator: files, texts, the creation time and the later images and
   * creators do not change it.
   */
  lemma PreviewIgnoresRest(s: Structure, t: Structure)
    requires s.id == t.id && s.name == t.name
    requires |s.images| > 0 && |t.images| > 0 && s.images[0].url == t.images[0].url
    requires |s.creators| > 0 && |t.creators| > 0 && s.creators[0].name == t.creators[0].name
    ensures ToPreview(s) == ToPreview(t)
  {
  }
}
