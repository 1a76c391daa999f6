/** The "posts" content collection: the record every post carries after the
    collection schema has validated it, and property access on that record
    as JavaScript performs it (an own key the schema does not declare reads
    as `undefined`, because the schema object drops unknown keys; the keys a
    plain object inherits from `Object.prototype` are outside the model). */
module Content {

  datatype Option<+T> = None | Some(value: T)

  /** Largest magnitude of an ECMAScript time value, in milliseconds. */
  const MaxTimeValue: int := 8_640_000_000_000_000

  /** A valid (finite, in-range) time value: the value inside a `Date`. */
  type TimeValue = t: int | -MaxTimeValue <= t <= MaxTimeValue

  /** The validated `post.data` record. */
  datatype PostData = PostData(
    title: string,
    description: string,
    tags: seq<string>,
    publishedDate: TimeValue,
    coverImage: Option<string>,
    gallery: Option<seq<string>>,
    author: string,
    authorImage: Option<string>,
    authorUrl: Option<string>,
    url: Option<string>,
    draft: bool,
    language: string
  )

  /** A collection entry: its identifier and its validated data. */
  datatype Post = Post(slug: string, data: PostData)

  /** The JavaScript values a property of `post.data` can hold. */
  datatype JsValue =
    | Undefined
    | Str(s: string)
    | Bool(b: bool)
    | StrArray(items: seq<string>)
    | DateObj(time: TimeValue)

  /** Every key the schema declares. */
  const SchemaKeys: set<string> :=
    {"title", "description", "tags", "publishedDate", "coverImage", "gallery",
     "author", "authorImage", "authorUrl", "URL", "draft", "language"}

  /** The keys the schema declares without `.optional()`. */
  const RequiredKeys: set<string> :=
    {"title", "description", "tags", "publishedDate", "author", "draft", "language"}

  /** The properties every plain object inherits from `Object.prototype`;
      reading one yields a function or the prototype, not `undefined`. */
  const InheritedKeys: set<string> :=
    {"constructor", "toString", "toLocaleString", "valueOf", "hasOwnProperty",
     "isPrototypeOf", "propertyIsEnumerable", "__proto__", "__defineGetter__",
     "__defineSetter__", "__lookupGetter__", "__lookupSetter__"}

  function OptionalStr(o: Option<string>): JsValue {
    match o
    case None => Undefined
    case Some(s) => Str(s)
  }

  /** `data[key]` for a key that is not inherited: a declared key yields its
      value, an absent optional field or an undeclared key yields `undefined`. */
  function Lookup(d: PostData, key: string): (v: JsValue)
    requires key !in InheritedKeys
    ensures v != Undefined ==> key in SchemaKeys
    ensures key in RequiredKeys ==> v != Undefined
  {
    if key == "title" then Str(d.title)
    else if key == "description" then Str(d.description)
    else if key == "tags" then StrArray(d.tags)
    else if key == "publishedDate" then DateObj(d.publishedDate)
    else if key == "coverImage" then OptionalStr(d.coverImage)
    else if key == "gallery" then (match d.gallery case None => Undefined case Some(g) => StrArray(g))
    else if key == "author" then Str(d.author)
    else if key == "authorImage" then OptionalStr(d.authorImage)
    else if key == "authorUrl" then OptionalStr(d.authorUrl)
    else if key == "URL" then OptionalStr(d.url)
    else if key == "draft" then Bool(d.draft)
    else if key == "language" then Str(d.language)
    else Undefined
  }
}
