/** The normalised record shared by every adapter, the store and the renderers,
    and the small wrapper types the rest of the model uses. */
module Models {

  datatype Option<+T> = None | Some(value: T)

  /** A result that is either a value or an error message (Go's `(T, error)` pair). */
  datatype Outcome<+T> = Ok(value: T) | Err(error: string)

  /** One job posting. `publishedDate` is seconds since the epoch; `id` is an opaque
      generated identifier and is not part of the logical identity. */
  datatype Notice = Notice(
    id: string,
    title: string,
    body: string,
    url: string,
    authorName: string,
    authorUrl: string,
    imageUrl: Option<string>,
    sourceId: string,
    raw: string,
    guid: string,
    publishedDate: Option<int>)

  /** The logical identity of a notice: the pair the store's unique constraint is on. */
  datatype NoticeKey = NoticeKey(guid: string, sourceId: string)

  function Key(n: Notice): NoticeKey
  {
    NoticeKey(n.guid, n.sourceId)
  }

  /** The public site that shows every stored notice under its id. */
  const SiteUrl := "https://workfindy.com/"

  lemma AppendAssociative<T>(a: seq<T>, b: seq<T>, c: seq<T>)
    ensures a + b + c == a + (b + c)
  {
  }

  function Min(a: int, b: int): int
  {
    if a <= b then a else b
  }
}
