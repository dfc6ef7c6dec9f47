/** The `Settings` dictionary a route or middleware entry of WebServer6's `config.json` carries
    (`Dictionary<string, JsonElement>`), the `JsonElement` accessors the plugins call on it, and
    the exceptions those accessors and the plugins throw. */
module Settings {
  import opened Wrappers
  import opened Integers

  /** A JSON value as `System.Text.Json` hands it over. An integral number and a number with a
      fraction or an exponent are told apart because only the first can be read as an `int`. */
  datatype JsonElement =
    | JString(text: string)
    | JNumber(value: int)
    | JFraction
    | JBool(truth: bool)
    | JArray(items: seq<JsonElement>)
    | JObject
    | JNull

  /** The exceptions the model tells apart. */
  datatype Exception =
    | ArgumentException
    | ArgumentNullException
    | ArgumentOutOfRangeException
    | InvalidOperationException
    | InvalidCastException
    | FormatException
    | NullReferenceException
    | FileNotFoundException
    | IOException
    | ObjectDisposedException
    | MissingMethodException
    | NotSupportedException

  /** A `Settings` dictionary; `None` when the entry has no `Settings` object, which the
      deserializer leaves `null`. Keys compare ordinally. */
  type SettingsMap = Option<map<string, JsonElement>>

  /** `settings.TryGetValue(key, out value)`: throws on a `null` dictionary. */
  function TryGetValue(settings: SettingsMap, key: string): (r: Result<Option<JsonElement>, Exception>)
    ensures r.Failure? <==> settings.None?
    ensures r.Success? ==> (r.value.Some? <==> key in settings.value)
    ensures r.Success? && r.value.Some? ==> r.value.value == settings.value[key]
  {
    match settings
    case None => Failure(NullReferenceException)
    case Some(m) => Success(if key in m then Some(m[key]) else None)
  }

  /** `JsonElement.GetString()`: a string, or `null` for JSON `null`; any other kind throws. */
  function GetString(e: JsonElement): (r: Result<Option<string>, Exception>)
    ensures r.Success? <==> e.JString? || e.JNull?
    ensures r.Success? ==> (r.value.Some? <==> e.JString?)
    ensures r.Success? && r.value.Some? ==> r.value.value == e.text
    ensures r.Failure? ==> r.error == InvalidOperationException
  {
    match e
    case JString(text) => Success(Some(text))
    case JNull => Success(None)
    case _ => Failure(InvalidOperationException)
  }

  /** `JsonElement.GetInt32()`: a number that is an integer in range; another number throws
      `FormatException`, another kind of value `InvalidOperationException`. */
  function GetInt32(e: JsonElement): (r: Result<int, Exception>)
    ensures r.Success? <==> e.JNumber? && IsInt32(e.value)
    ensures r.Success? ==> r.value == e.value
    ensures r.Failure? ==> r.error == (if e.JNumber? || e.JFraction? then FormatException else InvalidOperationException)
  {
    match e
    case JNumber(value) => if IsInt32(value) then Success(value) else Failure(FormatException)
    case JFraction => Failure(FormatException)
    case _ => Failure(InvalidOperationException)
  }

  /** `e.EnumerateArray().Select(p => p.GetString()).ToList()`: every item read in order; the
      first item that is neither a string nor `null` throws. */
  function GetStrings(e: JsonElement): (r: Result<seq<Option<string>>, Exception>)
    ensures r.Success? <==> e.JArray? && forall i :: 0 <= i < |e.items| ==> GetString(e.items[i]).Success?
    ensures r.Success? ==> |r.value| == |e.items|
    ensures r.Success? ==> forall i :: 0 <= i < |r.value| ==> r.value[i] == GetString(e.items[i]).value
  {
    if !e.JArray? then Failure(InvalidOperationException) else GetStringItems(e.items)
  }

  function GetStringItems(items: seq<JsonElement>): (r: Result<seq<Option<string>>, Exception>)
    ensures r.Success? <==> forall i :: 0 <= i < |items| ==> GetString(items[i]).Success?
    ensures r.Success? ==> |r.value| == |items|
    ensures r.Success? ==> forall i :: 0 <= i < |r.value| ==> r.value[i] == GetString(items[i]).value
  {
    if items == [] then Success([])
    else
      var first :- GetString(items[0]);
      var rest :- GetStringItems(items[1..]);
      Success([first] + rest)
  }
}
