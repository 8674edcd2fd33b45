/** `sfdc.util.encodeParams`: an object's key/value pairs as a URI query
    string. The object is given as its `Object.keys` order of pairs, and
    `encodeURIComponent` as a parameter. */
module QueryParams {
  import opened Seqs

  /** One property of the parameter object, `[key, value]`. */
  type Param = (string, string)

  /** `[].filter.call(keys, function(param){ return param; })`: the empty
      key is falsy and is dropped. */
  predicate Kept(p: Param)
  {
    p.0 != ""
  }

  /** `encodeURIComponent(param) + '=' + encodeURIComponent(jsonParams[param])`. */
  function Entry(p: Param, enc: string -> string): string
  {
    enc(p.0) + "=" + enc(p.1)
  }

  /** The `map` step over the kept keys, in order. */
  function Entries(params: seq<Param>, enc: string -> string): (r: seq<string>)
    ensures var kept := Filter(params, Kept);
      |r| == |kept| && forall i :: 0 <= i < |kept| ==> r[i] == Entry(kept[i], enc)
  {
    var kept := Filter(params, Kept);
    seq(|kept|, i requires 0 <= i < |kept| => Entry(kept[i], enc))
  }

  /** `encodeParams(jsonParams)`: the entries joined with `&`. */
  function EncodeParams(params: seq<Param>, enc: string -> string): string
  {
    Join(Entries(params, enc), '&')
  }

  /** What `encodeURIComponent` guarantees: it escapes both delimiters. */
  ghost predicate EscapesDelimiters(enc: string -> string)
  {
    forall s :: '&' !in enc(s) && '=' !in enc(s)
  }

  /** A query decoder: split on `&`, then each part on `=`, and decode both
      halves; the empty query has no parameters. */
  function DecodeParams(query: string, dec: string -> string): seq<Param>
  {
    if query == "" then []
    else
      var parts := Split(query, '&');
      seq(|parts|, i requires 0 <= i < |parts| =>
        var kv := Split(parts[i], '=');
        (dec(kv[0]), if |kv| > 1 then dec(kv[1]) else ""))
  }

  /** An entry splits on `=` into its encoded key and encoded value. */
  lemma EntrySplit(p: Param, enc: string -> string)
    requires EscapesDelimiters(enc)
    ensures Split(Entry(p, enc), '=') == [enc(p.0), enc(p.1)]
  {
    var parts := [enc(p.0), enc(p.1)];
    assert parts[1..] == [enc(p.1)];
    assert Join(parts, '=') == Entry(p, enc);
    SplitJoin(parts, '=');
  }

  /** The query splits on `&` into exactly the entries of the kept keys,
      in order; with no kept key the query is empty. */
  lemma EncodeParamsSplit(params: seq<Param>, enc: string -> string)
    requires EscapesDelimiters(enc)
    ensures |Entries(params, enc)| == 0 <==> EncodeParams(params, enc) == ""
    ensures |Entries(params, enc)| > 0 ==> Split(EncodeParams(params, enc), '&') == Entries(params, enc)
  {
    var entries := Entries(params, enc);
    if |entries| > 0 {
      assert forall i :: 0 <= i < |entries| ==> '&' !in entries[i];
      SplitJoin(entries, '&');
      assert '=' in entries[0];
      JoinFirst(entries, '&');
      assert entries[0] <= EncodeParams(params, enc);
    }
  }

  /** Decoding the query gives back the parameters with a non-empty key, in
      their `Object.keys` order, provided decoding undoes the encoding. */
  lemma EncodeDecode(params: seq<Param>, enc: string -> string, dec: string -> string)
    requires EscapesDelimiters(enc)
    requires forall s :: dec(enc(s)) == s
    ensures DecodeParams(EncodeParams(params, enc), dec) == Filter(params, Kept)
  {
    var kept := Filter(params, Kept);
    var entries := Entries(params, enc);
    var query := EncodeParams(params, enc);
    EncodeParamsSplit(params, enc);
    if |entries| > 0 {
      var decoded := DecodeParams(query, dec);
      forall i | 0 <= i < |kept| ensures decoded[i] == kept[i] {
        EntrySplit(kept[i], enc);
      }
    }
  }
}
