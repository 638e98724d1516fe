/**
 * The upload path the three scripts share: choosing a loader from the file name,
 * trimming the header keys of parsed CSV rows, and turning a parsed JSON value into
 * a list of rows.
 */
module Upload {
  import opened JsText
  import opened JsValues

  /** The three loaders. */
  datatype FileKind = Csv | Excel | Json

  /** What `handleFileUpload` does with the selected files. */
  datatype Decision = NoFile | Unsupported | Read(kind: FileKind)

  /** `handleFileUpload`'s dispatch on the lower-cased name of the first file. */
  function Decide(fileNames: seq<string>): (r: Decision)
    ensures r == NoFile <==> fileNames == []
    ensures fileNames != [] ==>
      var name := ToLower(fileNames[0]);
      && (r == Read(Csv) <==> EndsWith(name, ".csv"))
      && (r == Read(Excel) <==> !EndsWith(name, ".csv") && (EndsWith(name, ".xlsx") || EndsWith(name, ".xls")))
      && (r == Read(Json) <==> !EndsWith(name, ".csv") && !EndsWith(name, ".xlsx") && !EndsWith(name, ".xls")
                               && EndsWith(name, ".json"))
  {
    if |fileNames| == 0 then NoFile
    else
      var name := ToLower(fileNames[0]);
      if EndsWith(name, ".csv") then Read(Csv)
      else if EndsWith(name, ".xlsx") || EndsWith(name, ".xls") then Read(Excel)
      else if EndsWith(name, ".json") then Read(Json)
      else Unsupported
  }

  /** A name is dispatched to a loader exactly when it ends in one of the four
      suffixes; the four suffixes cannot overlap, so the order of the tests only
      matters for names that end in none of them. */
  lemma DecideSupported(fileNames: seq<string>)
    requires fileNames != []
    ensures var name := ToLower(fileNames[0]);
      Decide(fileNames).Read? <==>
        EndsWith(name, ".csv") || EndsWith(name, ".xlsx") || EndsWith(name, ".xls") || EndsWith(name, ".json")
    ensures var name := ToLower(fileNames[0]);
      EndsWith(name, ".json") ==> Decide(fileNames) == Read(Json)
  {
    var name := ToLower(fileNames[0]);
    if EndsWith(name, ".json") {
      assert name[|name| - 4..] == ".json"[1..];
      assert !EndsWith(name, ".csv") by {
        assert name[|name| - 4..][0] != ".csv"[0];
      }
      assert !EndsWith(name, ".xlsx") by {
        assert name[|name| - 5..][4] != ".xlsx"[4];
      }
      assert !EndsWith(name, ".xls") by {
        assert name[|name| - 4..][0] != ".xls"[0];
      }
    }
  }

  /** The result of cleaning one row's header keys: every key is its own trim, every
      original key's trim is a key, and each value comes from an original key with
      that trim. */
  predicate HeadersTrimmed(row: Row, r: Row) {
    && (forall k :: k in r ==> Trim(k) == k)
    && (forall k :: k in row ==> Trim(k) in r)
    && (forall t :: t in r ==> exists k :: k in row && Trim(k) == t && r[t] == row[k])
  }

  /** A cleaned row keeps the value of every column whose trimmed name no other
      column shares. */
  lemma HeadersTrimmedKeepsValues(row: Row, r: Row, k: string)
    requires HeadersTrimmed(row, r)
    requires k in row && forall j :: j in row && Trim(j) == Trim(k) ==> j == k
    ensures Trim(k) in r && r[Trim(k)] == row[k]
  {
  }

  /** The state of `TrimRowKeys` after the keys in `done` were visited and those in
      `keys` were not, for a key normalisation `norm` (the trim): pending keys
      that need renaming are intact, no key was lost, every key is normalised or
      pending, every visited key's normal form is present, and every normalised
      key holds a value from a key with that normal form. */
  ghost predicate RenameProgress(norm: string -> string, row: Row, r: Row, keys: set<string>, done: set<string>) {
    && keys + done == row.Keys && keys !! done
    && (forall k :: k in keys && norm(k) != k ==> k in r && r[k] == row[k])
    && (forall k :: k in keys && norm(k) == k ==> k in r)
    && (forall k :: k in r ==> norm(k) == k || k in keys)
    && (forall k :: k in done ==> norm(k) in r)
    && (forall t :: t in r && norm(t) == t ==> exists k :: k in row && norm(k) == t && r[t] == row[k])
  }

  /** One visit of the inner loop: a key whose normal form differs is copied to the
      normal form and deleted. */
  function RenameKey(norm: string -> string, r: Row, key: string): Row
    requires key in r
  {
    if norm(key) != key then r[norm(key) := r[key]] - {key} else r
  }

  /** Visiting one pending key keeps `RenameProgress`, for any normalisation that is
      its own normal form. */
  lemma RenameKeyProgress(norm: string -> string, row: Row, r: Row, keys: set<string>, done: set<string>, key: string)
    requires forall k :: norm(norm(k)) == norm(k)
    requires RenameProgress(norm, row, r, keys, done) && key in keys
    ensures key in r && RenameProgress(norm, row, RenameKey(norm, r, key), keys - {key}, done + {key})
  {
    if norm(key) != key {
      RenameMoves(norm, row, r, keys, done, key);
      RenamedValues(norm, row, r, keys, done, key);
    }
  }

  /** After a rename, the pending and visited keys are as `RenameProgress` needs:
      the renamed key is gone and its normal form is present. */
  lemma RenameMoves(norm: string -> string, row: Row, r: Row, keys: set<string>, done: set<string>, key: string)
    requires forall k :: norm(norm(k)) == norm(k)
    requires RenameProgress(norm, row, r, keys, done) && key in keys && norm(key) != key
    ensures var r' := r[norm(key) := r[key]] - {key};
      && (forall k :: k in keys - {key} && norm(k) != k ==> k in r' && r'[k] == row[k])
      && (forall k :: k in keys - {key} && norm(k) == k ==> k in r')
      && (forall k :: k in r' ==> norm(k) == k || k in keys - {key})
      && (forall k :: k in done + {key} ==> norm(k) in r')
  {
    var t := norm(key);
    assert norm(t) == t;
    var r' := r[t := r[key]] - {key};
    forall k | k in keys - {key} && norm(k) != k
      ensures k in r' && r'[k] == row[k]
    {
      assert k != t;
    }
    forall k | k in r'
      ensures norm(k) == k || k in keys - {key}
    {
      if k != t {
        assert k in r;
      }
    }
    forall k | k in done + {key}
      ensures norm(k) in r'
    {
      if k != key {
        assert norm(k) in r && norm(norm(k)) == norm(k);
      }
    }
  }

  /** After a rename, every normalised key still holds a value from a key with that
      normal form: the new key holds the renamed key's value. */
  lemma RenamedValues(norm: string -> string, row: Row, r: Row, keys: set<string>, done: set<string>, key: string)
    requires RenameProgress(norm, row, r, keys, done) && key in keys && norm(key) != key
    ensures var r' := r[norm(key) := r[key]] - {key};
      forall u :: u in r' && norm(u) == u ==> exists k :: k in row && norm(k) == u && r'[u] == row[k]
  {
    var t := norm(key);
    var r' := r[t := r[key]] - {key};
    forall u | u in r' && norm(u) == u
      ensures exists k :: k in row && norm(k) == u && r'[u] == row[k]
    {
      if u == t {
        assert key in row && norm(key) == u && r'[u] == row[key];
      } else {
        assert u in r && r'[u] == r[u];
      }
    }
  }

  /** The inner `Object.keys(row).forEach(...)`: each key whose trim differs is
      copied to the trimmed key and deleted. The keys are visited in an order the
      model leaves open. */
  method TrimRowKeys(row: Row) returns (r: Row)
    ensures HeadersTrimmed(row, r)
  {
    forall k: string
      ensures Trim(Trim(k)) == Trim(k)
    {
      TrimIdempotent(k);
    }
    r := row;
    var keys := row.Keys;
    ghost var done: set<string> := {};
    while keys != {}
      invariant RenameProgress(Trim, row, r, keys, done)
      decreases keys
    {
      var key :| key in keys;
      RenameKeyProgress(Trim, row, r, keys, done, key);
      var trimmed := Trim(key);
      if trimmed != key {
        r := r[trimmed := r[key]] - {key};
      }
      keys := keys - {key};
      done := done + {key};
    }
  }

  /** `data.forEach(row => ...)`: every parsed row has its header keys cleaned in place. */
  method CleanHeaders(data: array<Row>)
    modifies data
    ensures forall i :: 0 <= i < data.Length ==> HeadersTrimmed(old(data[i]), data[i])
  {
    ghost var orig := data[..];
    ghost var cleaned: seq<Row> := [];
    for i := 0 to data.Length
      invariant |cleaned| == i && data[..i] == cleaned && data[i..] == orig[i..]
      invariant forall j :: 0 <= j < i ==> HeadersTrimmed(orig[j], cleaned[j])
    {
      var r := TrimRowKeys(data[i]);
      data[i] := r;
      cleaned := cleaned + [r];
    }
    assert data[..] == cleaned;
  }

  /** What `JSON.parse` produced: an array of row objects, or a single object. */
  datatype JsonDoc = JsonArray(items: seq<Row>) | JsonObject(obj: Row)

  /** `Array.isArray(data) ? data : [data]`. */
  function WrapJson(doc: JsonDoc): (r: seq<Row>)
    ensures doc.JsonArray? ==> r == doc.items
    ensures doc.JsonObject? ==> |r| == 1 && r[0] == doc.obj
  {
    match doc
    case JsonArray(items) => items
    case JsonObject(obj) => [obj]
  }
}
