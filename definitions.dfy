/** The conversation record the listing and export commands sort and print,
    and the sort field and sort order choices (definitions.py). */
module Definitions {
  import opened Text
  import opened Options
  import opened JsonValue

  /** A conversation with its title, creation date, user-turn count and the
      wrapped conversation dict; the fields are set once and only read. */
  datatype Conversation = Conversation(title: Json, created: string, count: int, conversation: Json)

  /** What an attribute lookup yields: a stored value, or one of the
      methods and special attributes every instance has. */
  datatype Attr = Value(v: Json) | Member(name: string)

  /** The instance attributes set by the constructor. */
  predicate IsField(key: string) {
    key == "title" || key == "created" || key == "count" || key == "conversation"
  }

  /** Names `getattr` finds on the class: its own methods and those every
      Python object inherits. */
  const ClassMembers: set<string> := {
    "get", "to_dict", "__init__", "__getitem__", "__repr__", "__dict__", "__module__",
    "__doc__", "__weakref__", "__class__", "__delattr__", "__dir__", "__eq__",
    "__format__", "__ge__", "__getattribute__", "__getstate__", "__gt__", "__hash__",
    "__init_subclass__", "__le__", "__lt__", "__ne__", "__new__", "__reduce__",
    "__reduce_ex__", "__setattr__", "__sizeof__", "__str__", "__subclasshook__"
  }

  /** `getattr(self, key)` on a key it finds. */
  function Attribute(c: Conversation, key: string): (r: Attr)
    requires IsField(key) || key in ClassMembers
  {
    if key == "title" then Value(c.title)
    else if key == "created" then Value(Str(c.created))
    else if key == "count" then Value(Num(c.count))
    else if key == "conversation" then Value(c.conversation)
    else Member(key)
  }

  predicate HasAttribute(key: string) {
    IsField(key) || key in ClassMembers
  }

  /** `c.get(key, default)`: the attribute when there is one, otherwise the
      wrapped dict's value (or the default). */
  function Get(c: Conversation, key: string, default: Json): (r: Attr)
    requires !HasAttribute(key) ==> c.conversation.Obj?
  {
    if HasAttribute(key) then Attribute(c, key) else Value(c.conversation.GetOr(key, default))
  }

  /** The default of `get`. */
  const NotFound: Json := Str("Not found")

  /** `c[key]`: the attribute, or the text "<key> not found". */
  function Index(c: Conversation, key: string): (r: Attr) {
    if HasAttribute(key) then Attribute(c, key) else Value(Str(key + " not found"))
  }

  /** `c.to_dict()`: the wrapped dict itself. */
  function ToDict(c: Conversation): (r: Json)
    ensures r == c.conversation
  {
    c.conversation
  }

  /** An attribute wins over a key of the same name in the wrapped dict,
      and `get` and indexing agree on attributes. */
  lemma AttributeWins(c: Conversation, key: string, default: Json)
    requires IsField(key)
    ensures Get(c, key, default) == Index(c, key)
    ensures key == "title" ==> Get(c, key, default) == Value(c.title)
    ensures key == "count" ==> Get(c, key, default) == Value(Num(c.count))
    ensures key == "created" ==> Get(c, key, default) == Value(Str(c.created))
    ensures key == "conversation" ==> Get(c, key, default) == Value(c.conversation)
  {
  }

  /** For any other key `get` reads the wrapped dict and falls back to the
      default, "Not found" unless one is given. */
  lemma GetFallsBack(c: Conversation, key: string, default: Json)
    requires !HasAttribute(key) && c.conversation.Obj?
    ensures c.conversation.Get(key).Some? ==> Get(c, key, default) == Value(c.conversation.Get(key).value)
    ensures c.conversation.Get(key).None? ==> Get(c, key, default) == Value(default)
    ensures c.conversation.Get(key).None? ==> Get(c, key, NotFound) == Value(Str("Not found"))
  {
  }

  /** Indexing never consults the wrapped dict: two records with the same
      title, date and count index alike whatever they wrap. */
  lemma IndexIgnoresDict(c: Conversation, d: Conversation, key: string)
    requires c.title == d.title && c.created == d.created && c.count == d.count
    requires key != "conversation"
    ensures Index(c, key) == Index(d, key)
    ensures !HasAttribute(key) ==> Index(c, key) == Value(Str(key + " not found"))
  {
  }

  /** The fields a listing can be sorted by. */
  datatype SortField = NoSort | TitleField | CreatedField | CountField {
    function Value(): (r: string)
      ensures r != []
    {
      match this
      case NoSort => "no_sort"
      case TitleField => "title"
      case CreatedField => "created"
      case CountField => "count"
    }
  }

  /** `SortFields(s)`: the member with that value, if any. */
  function SortFieldFrom(s: string): (r: Option<SortField>)
    ensures r.Some? ==> r.value.Value() == s
  {
    if s == "no_sort" then Some(NoSort)
    else if s == "title" then Some(TitleField)
    else if s == "created" then Some(CreatedField)
    else if s == "count" then Some(CountField)
    else None
  }

  /** Every member is found from its value, so the values are distinct and
      the four members are all there is. */
  lemma SortFieldRoundTrip(f: SortField)
    ensures SortFieldFrom(f.Value()) == Some(f)
  {
  }

  datatype SortOrder = Asc | Desc {
    function Value(): (r: string)
      ensures r != []
    {
      match this
      case Asc => "asc"
      case Desc => "desc"
    }
  }

  function SortOrderFrom(s: string): (r: Option<SortOrder>)
    ensures r.Some? ==> r.value.Value() == s
  {
    if s == "asc" then Some(Asc) else if s == "desc" then Some(Desc) else None
  }

  lemma SortOrderRoundTrip(o: SortOrder)
    ensures SortOrderFrom(o.Value()) == Some(o)
  {
  }

  /** A sort field names an attribute of the record (or is "no_sort"). */
  lemma SortFieldsAreAttributes(f: SortField)
    requires f != NoSort
    ensures IsField(f.Value())
  {
  }
}
