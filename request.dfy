/** Request bodies as the schema validators see them, and the per-property checks the
    routers' body schemas are built from (`z.string()`, `.max(n)`, `z.array(z.string())`,
    `z.number()`, `.optional()`). A failed check names the property it failed on. */
module Request {
  import opened Results

  /** One property of a JSON request body: absent, a string, an integral number, an array
      of strings, or any other JSON value. */
  datatype Field = Missing | Str(str: string) | Num(num: int) | StrList(strs: seq<string>) | Other

  /** `z.string()`, followed by `.max(maxLength)` when a bound is given. */
  predicate StringFits(f: Field, maxLength: Option<nat>) {
    f.Str? && (maxLength.None? || |f.str| <= maxLength.value)
  }

  /** A required string property. */
  function RequiredString(f: Field, name: string, maxLength: Option<nat>): (r: Result<string>)
    ensures r.Ok? <==> StringFits(f, maxLength)
    ensures r.Ok? ==> r.value == f.str
    ensures r.Err? ==> r.error == InvalidBody(name)
  {
    if StringFits(f, maxLength) then Ok(f.str) else Err(InvalidBody(name))
  }

  /** `.optional()`: an absent property is accepted as `undefined`, a present one must fit. */
  function OptionalString(f: Field, name: string, maxLength: Option<nat>): (r: Result<Option<string>>)
    ensures r.Ok? <==> f.Missing? || StringFits(f, maxLength)
    ensures r.Ok? ==> (r.value.None? <==> f.Missing?)
    ensures r.Ok? && r.value.Some? ==> r.value.value == f.str
    ensures r.Err? ==> r.error == InvalidBody(name)
  {
    if f.Missing? then Ok(None)
    else if StringFits(f, maxLength) then Ok(Some(f.str))
    else Err(InvalidBody(name))
  }

  /** A required array of strings. */
  function RequiredStrings(f: Field, name: string): (r: Result<seq<string>>)
    ensures r.Ok? <==> f.StrList?
    ensures r.Ok? ==> r.value == f.strs
    ensures r.Err? ==> r.error == InvalidBody(name)
  {
    if f.StrList? then Ok(f.strs) else Err(InvalidBody(name))
  }

  /** An optional array of strings. */
  function OptionalStrings(f: Field, name: string): (r: Result<Option<seq<string>>>)
    ensures r.Ok? <==> f.Missing? || f.StrList?
    ensures r.Ok? ==> (r.value.None? <==> f.Missing?)
    ensures r.Ok? && r.value.Some? ==> r.value.value == f.strs
    ensures r.Err? ==> r.error == InvalidBody(name)
  {
    if f.Missing? then Ok(None)
    else if f.StrList? then Ok(Some(f.strs))
    else Err(InvalidBody(name))
  }

  /** A required number. */
  function RequiredNumber(f: Field, name: string): (r: Result<int>)
    ensures r.Ok? <==> f.Num?
    ensures r.Ok? ==> r.value == f.num
    ensures r.Err? ==> r.error == InvalidBody(name)
  {
    if f.Num? then Ok(f.num) else Err(InvalidBody(name))
  }

  /** The property that carries an optional value back into a body. */
  function StrOrMissing(s: Option<string>): Field {
    if s.Some? then Str(s.value) else Missing
  }

  function StrsOrMissing(s: Option<seq<string>>): Field {
    if s.Some? then StrList(s.value) else Missing
  }
}
