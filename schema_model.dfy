/**
  The in-memory schema the generator walks: declarations keyed by type name,
  their attributes, and the errors a lookup in them can raise.
 */
module SchemaModel {
  import opened Wrappers

  /** A scalar a schema field can hold: the loader yields strings and integers. */
  datatype Value = Str(s: string) | Int(i: int)

  /** An attribute's `size`: an integer literal, or the name of the field that supplies it. */
  datatype Size = Fixed(n: int) | Named(field: string)

  /**
    One entry of a struct's `layout`. Every attribute has a `type`; the other
    keys may be absent.
   */
  datatype Attribute = Attribute(
    name: Option<string>,
    typ: string,
    size: Option<Size>,
    disposition: Option<string>,
    comments: Option<string>)

  /** The keys of an attribute that a property search can compare. */
  datatype Property = NameKey | TypeKey | SizeKey | DispositionKey | CommentsKey

  function SizeValue(s: Size): Value {
    match s
    case Fixed(n) => Int(n)
    case Named(f) => Str(f)
  }

  /** `attribute[key]` when `key in attribute`, None otherwise. */
  function Get(a: Attribute, key: Property): Option<Value> {
    match key
    case NameKey => if a.name.Some? then Some(Str(a.name.value)) else None
    case TypeKey => Some(Str(a.typ))
    case SizeKey => if a.size.Some? then Some(SizeValue(a.size.value)) else None
    case DispositionKey => if a.disposition.Some? then Some(Str(a.disposition.value)) else None
    case CommentsKey => if a.comments.Some? then Some(Str(a.comments.value)) else None
  }

  /** A top-level declaration: `byte`, `enum`, `struct` (or any other tag). */
  datatype Decl = Decl(typ: string, size: Option<Size>, layout: Option<seq<Attribute>>)

  /**
    The schema: an insertion-ordered dictionary from type name to declaration,
    represented by its key order and its contents.
   */
  datatype Schema = Schema(order: seq<string>, decls: map<string, Decl>) {
    ghost predicate Valid() {
      (forall i, j :: 0 <= i < j < |order| ==> order[i] != order[j]) &&
      (forall n :: n in decls <==> n in order)
    }
  }

  /** The exceptions the helpers raise: a dictionary miss, `s[0]` on an empty string, runaway recursion. */
  datatype Failure = KeyError(key: Value) | IndexError | RecursionError
}
