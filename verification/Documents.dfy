/** document of document.go: MarshalJSON splices two serialisations, UnmarshalJSON takes a
    document apart again. */
module Documents {
  import opened Json
  import opened Decoder
  import opened IterLaws
  import opened Wrappers

  type Data = map<string, Value>

  /** The contents of a document.  Attachments have an encoder of their own, which is taken to
      write back what was read: here they are the JSON value of `_attachments`.  A parameter
      `isAtt` says which values but null the decoder of a single attachment accepts. */
  datatype Doc = Doc(id: string, rev: string, attachments: Option<Value>, data: Data)

  const NULL := Atom(Null)

  const RESERVED := {"_id", "_rev", "_attachments"}

  // ---------------------------------------------------------------------------
  // MarshalJSON
  // ---------------------------------------------------------------------------

  /** An order in which the keys of a map can be written, each once. */
  ghost predicate Listing(data: Data, keys: seq<string>) {
    && (forall k :: k in keys <==> k in data)
    && (forall i, j :: 0 <= i < j < |keys| ==> keys[i] != keys[j])
  }

  function Members(data: Data, keys: seq<string>): seq<Member>
    requires forall k :: k in keys ==> k in data
  {
    seq(|keys|, i requires 0 <= i < |keys| => assert keys[i] in keys; Member(keys[i], data[keys[i]]))
  }

  /** The member `_attachments`, which is left out when the pointer is nil. */
  function AttachmentsMember(d: Doc): seq<Member> {
    match d.attachments case None => [] case Some(v) => [Member("_attachments", v)]
  }

  /** The members that the struct itself has. */
  function StructMembers(d: Doc): seq<Member> {
    [Member("_id", Str(d.id)), Member("_rev", Str(d.rev))] + AttachmentsMember(d)
  }

  /** All members of the document: the struct's, then those of Data. */
  function AllMembers(d: Doc, keys: seq<string>): seq<Member>
    requires forall k :: k in keys ==> k in d.data
  {
    StructMembers(d) + Members(d.data, keys)
  }

  /** MarshalJSON; `keys` is the order in which json.Marshal writes Data.  The final brace of
      the first buffer becomes a comma, and the second is appended without its first brace. */
  method MarshalJSON(d: Doc, keys: seq<string>) returns (out: Lexemes)
    requires Listing(d.data, keys)
    ensures out == Lex(Obj(AllMembers(d, keys)))
  {
    var text := Lex(Obj(StructMembers(d)));
    var doc := new Lexeme[|text|](i requires 0 <= i < |text| => text[i]);
    assert doc[..] == text;
    if keys != [] {
      assert keys[0] in keys;
    }
    if |d.data| > 0 {
      var data := Lex(Obj(Members(d.data, keys)));
      ghost var k :| k in d.data;
      assert k in keys;
      assert |text| > 0 && |data| > 0;
      doc[doc.Length - 1] := Comma;
      out := doc[..] + data[1..];
      assert doc[..] == text[..|text| - 1] + [Comma];
      Splice(StructMembers(d), Members(d.data, keys));
    } else {
      out := doc[..];
      assert d.data == map[];
      assert AllMembers(d, keys) == StructMembers(d);
    }
  }

  /** Two serialised objects joined by a comma are the serialisation of all their members. */
  lemma {:induction false} Splice(a: seq<Member>, b: seq<Member>)
    requires a != [] && b != []
    ensures var x := Lex(Obj(a));
            x[..|x| - 1] + [Comma] + Lex(Obj(b))[1..] == Lex(Obj(a + b))
  {
    hide LexMember, LexMembers;
    LexMembersIsBody(a);
    LexMembersIsBody(b);
    LexMembersIsBody(a + b);
    BodyAppend(ObjectStart, a, b);
    assert MembersBody(ObjectComma, b) == [Comma] + MembersBody(ObjectStart, b);
    var x := Lex(Obj(a));
    assert x == [LBrace] + (MembersBody(ObjectStart, a) + [RBrace]);
    assert x[..|x| - 1] == [LBrace] + MembersBody(ObjectStart, a);
    assert Lex(Obj(b))[1..] == MembersBody(ObjectStart, b) + [RBrace];
  }

  // ---------------------------------------------------------------------------
  // UnmarshalJSON
  // ---------------------------------------------------------------------------

  /** Names of struct fields are matched by simple case folding.  Among all characters only
      these fold to an ASCII letter. */
  function FoldChar(c: char): char {
    if 'A' <= c <= 'Z' then (c as int + 32) as char
    else if c == '\U{017F}' then 's'
    else if c == '\U{212A}' then 'k'
    else c
  }

  function Fold(s: string): string {
    seq(|s|, i requires 0 <= i < |s| => FoldChar(s[i]))
  }

  /** Decoding into a string field: the last member whose name folds to the field's counts,
      null leaves the field alone, and any other type is an error. */
  function StringField(ms: seq<Member>, name: string, field: string): Result<string>
    decreases |ms|
  {
    if ms == [] then Ok(field)
    else if Fold(ms[0].key) != name || ms[0].value == NULL then StringField(ms[1..], name, field)
    else if !ms[0].value.Str? then Err(Mismatch)
    else StringField(ms[1..], name, ms[0].value.s)
  }

  /** Decoding into a map: the last member of a name counts. */
  function ToMap(ms: seq<Member>): Data
    decreases |ms|
  {
    if ms == [] then map[] else ToMap(ms[..|ms| - 1])[ms[|ms| - 1].key := ms[|ms| - 1].value]
  }

  datatype AttachmentsOutcome = Accepted | Refused | NilEntry

  /** An object of which every entry is null or an attachment. */
  predicate HoldsAttachments(isAtt: Value -> bool, v: Value) {
    v.Obj? && forall i :: 0 <= i < |v.members| ==> v.members[i].value == NULL || isAtt(v.members[i].value)
  }

  /** Some name has null in the map. */
  predicate MapsToNull(data: Data) {
    exists name :: name in data && data[name] == NULL
  }

  /** Attachments.UnmarshalJSON.  An entry that is null becomes a nil pointer, which is
      dereferenced when the file names are set; but first every entry must have been decoded. */
  function DecodeAttachments(isAtt: Value -> bool, v: Value): AttachmentsOutcome {
    if !HoldsAttachments(isAtt, v) then Refused
    else if MapsToNull(ToMap(v.members)) then NilEntry
    else Accepted
  }

  datatype Attachment = Attachment(filename: string, value: Value)

  /** The method itself, which gives every attachment its name; None is the panic. */
  method UnmarshalAttachments(isAtt: Value -> bool, v: Value) returns (r: AttachmentsOutcome, atts: map<string, Attachment>)
    ensures r == DecodeAttachments(isAtt, v)
    ensures r.Accepted? ==> atts == map name | name in ToMap(v.members) :: Attachment(name, ToMap(v.members)[name])
  {
    atts := map[];
    if !v.Obj? {
      return Refused, atts;
    }
    var i := 0;
    while i < |v.members|
      invariant i <= |v.members|
      invariant forall j :: 0 <= j < i ==> v.members[j].value == NULL || isAtt(v.members[j].value)
    {
      if v.members[i].value != NULL && !isAtt(v.members[i].value) {
        return Refused, atts;
      }
      i := i + 1;
    }
    var entries := ToMap(v.members);
    var rest := entries.Keys;
    while rest != {}
      invariant rest <= entries.Keys
      invariant forall name :: name in entries && name !in rest ==> entries[name] != NULL
      invariant atts == map name | name in entries && name !in rest :: Attachment(name, entries[name])
      decreases |rest|
    {
      var filename :| filename in rest;
      rest := rest - {filename};
      if entries[filename] == NULL {
        return NilEntry, atts;
      }
      atts := atts[filename := Attachment(filename, entries[filename])];
    }
    r := Accepted;
  }

  datatype AttachmentsResult = Field(value: Option<Value>) | Stopped(why: AttachmentsOutcome)

  /** Decoding into the attachments pointer: the last member of that name counts, and null is
      nil.  A refusal ends the decoding of the document at once, unlike a mismatch of types. */
  function AttachmentsField(isAtt: Value -> bool, ms: seq<Member>, field: Option<Value>): (r: AttachmentsResult)
    ensures r.Stopped? ==> !r.why.Accepted?
    decreases |ms|
  {
    if ms == [] then Field(field)
    else if Fold(ms[0].key) != "_attachments" then AttachmentsField(isAtt, ms[1..], field)
    else if ms[0].value == NULL then AttachmentsField(isAtt, ms[1..], None)
    else
      var o := DecodeAttachments(isAtt, ms[0].value);
      if o.Accepted? then AttachmentsField(isAtt, ms[1..], Some(ms[0].value)) else Stopped(o)
  }

  datatype Outcome = Success(d: Doc) | Failure(e: Error) | Panic

  /** The three fields and Data of a document that is an object. */
  function UnmarshalMembers(isAtt: Value -> bool, ms: seq<Member>): Outcome {
    match AttachmentsField(isAtt, ms, None)
    case Stopped(why) => if why.NilEntry? then Panic else Failure(Mismatch)
    case Field(atts) =>
      match (StringField(ms, "_id", ""), StringField(ms, "_rev", ""))
      case (Ok(id), Ok(rev)) => Success(Doc(id, rev, atts, ToMap(ms) - RESERVED))
      case _ => Failure(Mismatch)
  }

  /** What UnmarshalJSON makes of a text.  On null the struct pointer becomes nil and is then
      dereferenced. */
  function Unmarshal(isAtt: Value -> bool, text: Lexemes): Outcome {
    match Parse(text)
    case Invalid => Failure(Syntax)
    case Parsed(v, rest) =>
      if rest != [] then Failure(Syntax)
      else if v == NULL then Panic
      else if !v.Obj? then Failure(Mismatch)
      else UnmarshalMembers(isAtt, v.members)
  }

  datatype Return = Returned(err: Option<Error>) | Panicked

  class Document {
    var ID: string
    var Rev: string
    var Attachments: Option<Value>
    var Data: Data

    function Contents(): Doc
      reads this
    {
      Doc(ID, Rev, Attachments, Data)
    }

    /** UnmarshalJSON: unless it succeeds, the document is as it was. */
    method UnmarshalJSON(isAtt: Value -> bool, text: Lexemes) returns (r: Return)
      modifies this
      ensures match Unmarshal(isAtt, text)
              case Success(d) => r == Returned(None) && Contents() == d
              case Failure(e) => r == Returned(Some(e)) && Contents() == old(Contents())
              case Panic => r == Panicked && Contents() == old(Contents())
    {
      hide StringField, AttachmentsField, ToMap;
      var v := Parse(text);
      if v.Invalid? || v.rest != [] {
        return Returned(Some(Syntax));
      }
      if v.value == NULL {
        return Panicked;
      }
      if !v.value.Obj? {
        return Returned(Some(Mismatch));
      }
      var ms := v.value.members;
      var id, rev := StringField(ms, "_id", ""), StringField(ms, "_rev", "");
      var atts := AttachmentsField(isAtt, ms, None);
      if atts.Stopped? && atts.why.NilEntry? {
        return Panicked;
      }
      if id.Err? || rev.Err? || atts.Stopped? {
        return Returned(Some(Mismatch));
      }
      var data := ToMap(ms);
      data := data - {"_id"};
      data := data - {"_rev"};
      data := data - {"_attachments"};
      assert data == ToMap(ms) - RESERVED;
      ID, Rev, Attachments, Data := id.value, rev.value, atts.value, data;
      r := Returned(None);
    }
  }

  // ---------------------------------------------------------------------------
  // Round trip
  // ---------------------------------------------------------------------------

  lemma {:induction false} StringFieldConcat(a: seq<Member>, b: seq<Member>, name: string, field: string)
    ensures StringField(a + b, name, field) ==
            match StringField(a, name, field) case Err(e) => Err(e) case Ok(x) => StringField(b, name, x)
    decreases |a|
  {
    if a == [] {
      assert a + b == b;
    } else {
      assert (a + b)[1..] == a[1..] + b;
      if Fold(a[0].key) != name || a[0].value == Atom(Null) {
        StringFieldConcat(a[1..], b, name, field);
      } else if a[0].value.Str? {
        StringFieldConcat(a[1..], b, name, a[0].value.s);
      }
    }
  }

  lemma {:induction false} AttachmentsFieldConcat(
      isAtt: Value -> bool, a: seq<Member>, b: seq<Member>, field: Option<Value>)
    ensures AttachmentsField(isAtt, a + b, field) ==
            match AttachmentsField(isAtt, a, field)
            case Stopped(why) => Stopped(why)
            case Field(x) => AttachmentsField(isAtt, b, x)
    decreases |a|
  {
    hide DecodeAttachments;
    if a == [] {
      assert a + b == b;
    } else {
      assert (a + b)[1..] == a[1..] + b;
      if Fold(a[0].key) != "_attachments" {
        AttachmentsFieldConcat(isAtt, a[1..], b, field);
      } else if a[0].value == NULL {
        AttachmentsFieldConcat(isAtt, a[1..], b, None);
      } else if DecodeAttachments(isAtt, a[0].value).Accepted? {
        AttachmentsFieldConcat(isAtt, a[1..], b, Some(a[0].value));
      }
    }
  }

  lemma {:induction false} ToMapConcat(a: seq<Member>, b: seq<Member>)
    ensures ToMap(a + b) == ToMap(a) + ToMap(b)
    decreases |b|
  {
    if b == [] {
      assert a + b == a;
    } else {
      var n := |b| - 1;
      assert (a + b)[..|a + b| - 1] == a + b[..n];
      ToMapConcat(a, b[..n]);
    }
  }

  lemma {:induction false} ToMapOfListing(data: Data, keys: seq<string>)
    requires forall k :: k in keys ==> k in data
    ensures ToMap(Members(data, keys)) == map k | k in keys :: data[k]
    decreases |keys|
  {
    if keys != [] {
      var n := |keys| - 1;
      assert keys == keys[..n] + [keys[n]];
      assert Members(data, keys)[..n] == Members(data, keys[..n]);
      ToMapOfListing(data, keys[..n]);
    }
  }

  lemma {:induction false} FoldsToThemselves()
    ensures Fold("_id") == "_id" && Fold("_rev") == "_rev" && Fold("_attachments") == "_attachments"
  {
  }

  /** Which keys are taken for the ID: `_id` in upper or lower case.  Letters with other lower-case
      forms have more spellings. */
  lemma {:induction false} SpellingsOfId(key: string)
    ensures Fold(key) == "_id" <==> key in {"_id", "_iD", "_Id", "_ID"}
    ensures Fold("_attachment\U{017F}") == "_attachments" == Fold("_ATTACHMENTS")
  {
    if Fold(key) == "_id" {
      assert |key| == 3 && Fold(key)[0] == '_' && Fold(key)[1] == 'i' && Fold(key)[2] == 'd';
      assert FoldChar(key[0]) == '_' && FoldChar(key[1]) == 'i' && FoldChar(key[2]) == 'd';
      assert key == [key[0], key[1], key[2]];
    }
  }

  lemma {:induction false} StructReadsBack(isAtt: Value -> bool, d: Doc)
    ensures var ms := StructMembers(d);
            && StringField(ms, "_id", "") == Ok(d.id) && StringField(ms, "_rev", "") == Ok(d.rev)
            && AttachmentsField(isAtt, ms, None) == AttachmentsField(isAtt, AttachmentsMember(d), None)
            && ToMap(ms).Keys <= RESERVED
  {
    FoldsToThemselves();
    hide Fold;
    var id, rev := Member("_id", Str(d.id)), Member("_rev", Str(d.rev));
    var a, b := [id, rev], AttachmentsMember(d);
    assert a[1..] == [rev] && [rev][1..] == [] && a[..1] == [id] && [id][..0] == [];
    assert StringField([rev], "_id", d.id) == Ok(d.id) && StringField([rev], "_rev", "") == Ok(d.rev);
    assert AttachmentsField(isAtt, [rev], None) == Field(None);
    assert ToMap([id]) == map["_id" := Str(d.id)];
    assert ToMap(a).Keys == {"_id", "_rev"};
    if d.attachments.Some? {
      assert b[1..] == [] && b[..0] == [];
    }
    StringFieldConcat(a, b, "_id", "");
    StringFieldConcat(a, b, "_rev", "");
    AttachmentsFieldConcat(isAtt, a, b, None);
    ToMapConcat(a, b);
  }

  /** The fields of a written document, read back. */
  lemma {:induction false} FieldsReadBack(isAtt: Value -> bool, d: Doc, keys: seq<string>)
    requires Listing(d.data, keys)
    ensures var all, ms := AllMembers(d, keys), Members(d.data, keys);
            && StringField(all, "_id", "") == StringField(ms, "_id", d.id)
            && StringField(all, "_rev", "") == StringField(ms, "_rev", d.rev)
            && AttachmentsField(isAtt, all, None) == AttachmentsField(isAtt, AttachmentsMember(d) + ms, None)
            && ToMap(all) - RESERVED == d.data - RESERVED
  {
    hide StringField, AttachmentsField, ToMap, Members, StructMembers, AttachmentsMember;
    var a, b := StructMembers(d), Members(d.data, keys);
    StructReadsBack(isAtt, d);
    StringFieldConcat(a, b, "_id", "");
    StringFieldConcat(a, b, "_rev", "");
    AttachmentsFieldConcat(isAtt, a, b, None);
    AttachmentsFieldConcat(isAtt, AttachmentsMember(d), b, None);
    ToMapConcat(a, b);
    ToMapOfListing(d.data, keys);
    assert ToMap(b) == d.data;
  }

  /** What UnmarshalJSON makes of a written document, in every case: the fields as the members of
      Data leave them, and Data without the reserved names; or an error or a panic. */
  lemma {:induction false} UnmarshalOfMarshal(isAtt: Value -> bool, d: Doc, keys: seq<string>)
    requires Listing(d.data, keys)
    ensures var ms := Members(d.data, keys);
            Unmarshal(isAtt, Lex(Obj(AllMembers(d, keys)))) ==
            match AttachmentsField(isAtt, AttachmentsMember(d) + ms, None)
            case Stopped(why) => if why.NilEntry? then Panic else Failure(Mismatch)
            case Field(atts) =>
              match (StringField(ms, "_id", d.id), StringField(ms, "_rev", d.rev))
              case (Ok(id), Ok(rev)) => Success(Doc(id, rev, atts, d.data - RESERVED))
              case _ => Failure(Mismatch)
  {
    UnmarshalObject(isAtt, AllMembers(d, keys));
    hide Lex, Unmarshal, StringField, AttachmentsField, ToMap, Members, AllMembers;
    FieldsReadBack(isAtt, d, keys);
  }

  lemma {:induction false} UnmarshalObject(isAtt: Value -> bool, ms: seq<Member>)
    ensures Unmarshal(isAtt, Lex(Obj(ms))) == UnmarshalMembers(isAtt, ms)
  {
    ParseLex(Obj(ms), []);
    assert Lex(Obj(ms)) + [] == Lex(Obj(ms));
    hide Lex, Parse, UnmarshalMembers;
  }

  // ---------------------------------------------------------------------------
  // What Data must be like
  // ---------------------------------------------------------------------------

  /** The member answers to the field of that name. */
  predicate Spells(m: Member, name: string) {
    Fold(m.key) == name
  }

  predicate LastSpelling(ms: seq<Member>, name: string, i: nat)
    requires i < |ms|
  {
    Spells(ms[i], name) && forall j :: i < j < |ms| ==> !Spells(ms[j], name)
  }

  predicate LastNonNull(ms: seq<Member>, name: string, i: nat)
    requires i < |ms|
  {
    && Spells(ms[i], name) && ms[i].value != NULL
    && forall j :: i < j < |ms| && Spells(ms[j], name) ==> ms[j].value == NULL
  }

  /** Every spelling of a string field holds a string or null, and the last that is not null
      holds the field's own value. */
  predicate KeepsString(ms: seq<Member>, name: string, field: string) {
    && (forall i :: 0 <= i < |ms| && Spells(ms[i], name) ==> ms[i].value.Str? || ms[i].value == NULL)
    && (forall i :: 0 <= i < |ms| && LastNonNull(ms, name, i) ==> ms[i].value == Str(field))
  }

  /** The last entry of its name, and null. */
  predicate LastIsNull(entries: seq<Member>, i: nat)
    requires i < |entries|
  {
    entries[i].value == NULL && forall j :: i < j < |entries| ==> entries[j].key != entries[i].key
  }

  predicate HasNilEntry(v: Value)
    requires v.Obj?
  {
    exists i :: 0 <= i < |v.members| && LastIsNull(v.members, i)
  }

  /** A value of `_attachments` that is null or attachments without a nil entry. */
  predicate Harmless(isAtt: Value -> bool, v: Value) {
    v == NULL || (HoldsAttachments(isAtt, v) && !HasNilEntry(v))
  }

  /** Every spelling of `_attachments` holds attachments or null, and the last one holds the
      field's own value. */
  predicate KeepsAttachments(isAtt: Value -> bool, ms: seq<Member>, field: Option<Value>) {
    && (forall i :: 0 <= i < |ms| && Spells(ms[i], "_attachments") ==> Harmless(isAtt, ms[i].value))
    && (forall i :: 0 <= i < |ms| && LastSpelling(ms, "_attachments", i) ==>
          field == if ms[i].value == NULL then None else Some(ms[i].value))
  }

  /** The result of decoding into a string field, said of the members. */
  lemma {:induction false} StringFieldIs(ms: seq<Member>, name: string, field: string, want: string)
    ensures StringField(ms, name, field) == Ok(want) <==>
            && KeepsString(ms, name, want)
            && ((forall i :: 0 <= i < |ms| && Spells(ms[i], name) ==> ms[i].value == NULL) ==> field == want)
    decreases |ms|
  {
    if ms != [] {
      hide Fold;
      var n := |ms| - 1;
      var init, last := ms[..n], ms[n];
      assert ms == init + [last] && [last][1..] == [];
      StringFieldConcat(init, [last], name, field);
      assert forall i :: 0 <= i < n ==> init[i] == ms[i];
      if Spells(last, name) && last.value != NULL {
        StringFieldGoes(init, name, field);
        assert LastNonNull(ms, name, n);
      } else {
        StringFieldIs(init, name, field, want);
        assert forall i :: 0 <= i < n ==> (LastNonNull(ms, name, i) <==> LastNonNull(init, name, i));
      }
    }
  }

  /** Decoding into a string field works exactly if every spelling holds a string or null. */
  lemma {:induction false} StringFieldGoes(ms: seq<Member>, name: string, field: string)
    ensures StringField(ms, name, field).Ok? <==>
            forall i :: 0 <= i < |ms| && Spells(ms[i], name) ==> ms[i].value.Str? || ms[i].value == NULL
    decreases |ms|
  {
    if ms != [] {
      assert ms == [ms[0]] + ms[1..];
      assert forall i :: 0 <= i < |ms[1..]| ==> ms[1..][i] == ms[i + 1];
      assert forall i :: 1 <= i < |ms| ==> ms[i] == ms[1..][i - 1];
      if Fold(ms[0].key) != name || ms[0].value == NULL {
        StringFieldGoes(ms[1..], name, field);
      } else if ms[0].value.Str? {
        StringFieldGoes(ms[1..], name, ms[0].value.s);
      } else {
        assert Spells(ms[0], name);
      }
    }
  }

  lemma {:induction false} NullInMapIffLast(ms: seq<Member>)
    ensures MapsToNull(ToMap(ms)) <==> exists i :: 0 <= i < |ms| && LastIsNull(ms, i)
    decreases |ms|
  {
    hide ToMap;
    if i: nat :| i < |ms| && LastIsNull(ms, i) {
      LastCounts(ms, i);
      assert ms[i].key in ToMap(ms) && ToMap(ms)[ms[i].key] == NULL;
    }
    if name :| name in ToMap(ms) && ToMap(ms)[name] == NULL {
      var i := LastOfName(ms, name);
      assert LastIsNull(ms, i);
    }
  }

  lemma {:induction false} LastCounts(ms: seq<Member>, i: nat)
    requires i < |ms| && forall j :: i < j < |ms| ==> ms[j].key != ms[i].key
    ensures ms[i].key in ToMap(ms) && ToMap(ms)[ms[i].key] == ms[i].value
    decreases |ms|
  {
    if i < |ms| - 1 {
      LastCounts(ms[..|ms| - 1], i);
    }
  }

  lemma {:induction false} LastOfName(ms: seq<Member>, name: string) returns (i: nat)
    requires name in ToMap(ms)
    ensures i < |ms| && ms[i].key == name && ToMap(ms)[name] == ms[i].value
    ensures forall j :: i < j < |ms| ==> ms[j].key != name
    decreases |ms|
  {
    i := |ms| - 1;
    if ms[i].key != name {
      i := LastOfName(ms[..i], name);
    }
  }

  /** The outcome of decoding attachments, said of the value. */
  lemma {:induction false} DecodeAttachmentsIs(isAtt: Value -> bool, v: Value)
    ensures DecodeAttachments(isAtt, v) ==
            if !HoldsAttachments(isAtt, v) then Refused else if HasNilEntry(v) then NilEntry else Accepted
  {
    hide ToMap;
    if v.Obj? {
      NullInMapIffLast(v.members);
      hide MapsToNull;
    }
  }

  /** Attachments are refused exactly if they are no object or some entry is neither null nor an
      attachment; not because of a null, which panics if it is the last of its name. */
  lemma {:induction false} AttachmentsRefusedIff(isAtt: Value -> bool, v: Value)
    ensures DecodeAttachments(isAtt, v).Refused? <==>
            !v.Obj? || exists m :: m in v.members && m.value != Atom(Null) && !isAtt(m.value)
    ensures DecodeAttachments(isAtt, v).NilEntry? ==> exists m :: m in v.members && m.value == Atom(Null)
  {
    DecodeAttachmentsIs(isAtt, v);
    hide DecodeAttachments;
    if v.Obj? {
      assert forall i :: 0 <= i < |v.members| ==> v.members[i] in v.members;
    }
  }

  lemma {:induction false} AttachmentsFieldIs(
      isAtt: Value -> bool, ms: seq<Member>, field: Option<Value>, want: Option<Value>)
    ensures AttachmentsField(isAtt, ms, field) == Field(want) <==>
            && KeepsAttachments(isAtt, ms, want)
            && ((forall i :: 0 <= i < |ms| ==> !Spells(ms[i], "_attachments")) ==> field == want)
    decreases |ms|
  {
    if ms != [] {
      hide Fold, DecodeAttachments, Harmless;
      var n := |ms| - 1;
      var init, last := ms[..n], ms[n];
      assert ms == init + [last] && [last][1..] == [];
      AttachmentsFieldConcat(isAtt, init, [last], field);
      assert forall i :: 0 <= i < n ==> init[i] == ms[i];
      if Spells(last, "_attachments") {
        HarmlessIff(isAtt, last.value);
        AttachmentsFieldGoes(isAtt, init, field);
        assert LastSpelling(ms, "_attachments", n);
      } else {
        AttachmentsFieldIs(isAtt, init, field, want);
        assert forall i :: 0 <= i < n ==> (LastSpelling(ms, "_attachments", i) <==> LastSpelling(init, "_attachments", i));
      }
    }
  }

  lemma {:induction false} HarmlessIff(isAtt: Value -> bool, v: Value)
    ensures Harmless(isAtt, v) <==> v == NULL || DecodeAttachments(isAtt, v).Accepted?
  {
    DecodeAttachmentsIs(isAtt, v);
    hide DecodeAttachments;
  }

  lemma {:induction false} AttachmentsFieldGoes(isAtt: Value -> bool, ms: seq<Member>, field: Option<Value>)
    ensures AttachmentsField(isAtt, ms, field).Field? <==>
            forall i :: 0 <= i < |ms| && Spells(ms[i], "_attachments") ==> Harmless(isAtt, ms[i].value)
    decreases |ms|
  {
    if ms != [] {
      hide DecodeAttachments, Harmless;
      assert ms == [ms[0]] + ms[1..];
      assert forall i :: 0 <= i < |ms[1..]| ==> ms[1..][i] == ms[i + 1];
      assert forall i :: 1 <= i < |ms| ==> ms[i] == ms[1..][i - 1];
      HarmlessIff(isAtt, ms[0].value);
      if Fold(ms[0].key) != "_attachments" {
        AttachmentsFieldGoes(isAtt, ms[1..], field);
      } else if ms[0].value == NULL {
        AttachmentsFieldGoes(isAtt, ms[1..], None);
      } else if DecodeAttachments(isAtt, ms[0].value).Accepted? {
        AttachmentsFieldGoes(isAtt, ms[1..], Some(ms[0].value));
      } else {
        assert Spells(ms[0], "_attachments");
      }
    }
  }

  // ---------------------------------------------------------------------------
  // When UnmarshalJSON panics
  // ---------------------------------------------------------------------------

  /** The i-th member spells `_attachments` and holds a nil entry, and decoding gets there. */
  predicate NilEntryAt(isAtt: Value -> bool, ms: seq<Member>, i: nat)
    requires i < |ms|
  {
    && Spells(ms[i], "_attachments") && HoldsAttachments(isAtt, ms[i].value) && HasNilEntry(ms[i].value)
    && forall j :: 0 <= j < i && Spells(ms[j], "_attachments") ==> Harmless(isAtt, ms[j].value)
  }

  lemma {:induction false} NilEntryStops(isAtt: Value -> bool, ms: seq<Member>, field: Option<Value>)
    ensures AttachmentsField(isAtt, ms, field) == Stopped(NilEntry) <==>
            exists i :: 0 <= i < |ms| && NilEntryAt(isAtt, ms, i)
    decreases |ms|
  {
    if ms != [] {
      var n := |ms| - 1;
      var init, last := ms[..n], ms[n];
      assert ms == init + [last] && [last][1..] == [];
      AttachmentsFieldConcat(isAtt, init, [last], field);
      assert forall i :: 0 <= i < n ==> (NilEntryAt(isAtt, ms, i) <==> NilEntryAt(isAtt, init, i));
      NilEntryStops(isAtt, init, field);
      AttachmentsFieldGoes(isAtt, init, field);
      DecodeAttachmentsIs(isAtt, last.value);
      hide Fold, DecodeAttachments, HasNilEntry, HoldsAttachments;
      if AttachmentsField(isAtt, init, field).Field? {
        assert AttachmentsField(isAtt, ms, field) == Stopped(NilEntry) <==> NilEntryAt(isAtt, ms, n);
      } else {
        assert !NilEntryAt(isAtt, ms, n);
      }
    }
  }

  /** UnmarshalJSON panics on the text `null`, and on an object in which a spelling of
      `_attachments` holds attachments of which one is null, unless an earlier spelling is
      refused; and on no other text. */
  lemma {:induction false} PanicsIff(isAtt: Value -> bool, text: Lexemes)
    ensures Unmarshal(isAtt, text) == Panic <==>
            || text == [Literal(Null)]
            || exists ms :: text == Lex(Obj(ms)) && exists i :: 0 <= i < |ms| && NilEntryAt(isAtt, ms, i)
  {
    hide NilEntryAt, AttachmentsField, StringField;
    forall ms | text == Lex(Obj(ms))
      ensures Unmarshal(isAtt, text) == Panic <==> exists i :: 0 <= i < |ms| && NilEntryAt(isAtt, ms, i)
    {
      UnmarshalObject(isAtt, ms);
      NilEntryStops(isAtt, ms, None);
    }
    if Unmarshal(isAtt, text) == Panic {
      ParseSound(text);
      var v := Parse(text).value;
      assert text == Lex(v) + [] == Lex(v);
      assert v == NULL || text == Lex(Obj(v.members));
    }
  }

  /** For example, on a document with an attachment that is null, whatever its name. */
  lemma {:induction false} NullAttachmentPanics(isAtt: Value -> bool, name: string)
    ensures Unmarshal(isAtt, Lex(Obj([Member("_attachments", Obj([Member(name, NULL)]))]))) == Panic
  {
    hide Fold, Lex, Unmarshal;
    var atts := Obj([Member(name, NULL)]);
    var ms := [Member("_attachments", atts)];
    FoldsToThemselves();
    assert LastIsNull(atts.members, 0);
    assert NilEntryAt(isAtt, ms, 0);
    hide NilEntryAt;
    PanicsIff(isAtt, Lex(Obj(ms)));
  }

  // ---------------------------------------------------------------------------
  // When it succeeds, and with what
  // ---------------------------------------------------------------------------

  /** The last member with its own name. */
  predicate LastOfKey(ms: seq<Member>, i: nat)
    requires i < |ms|
  {
    forall j :: i < j < |ms| ==> ms[j].key != ms[i].key
  }

  /** The string field is that of the last spelling that is not null, and empty without one. */
  predicate HoldsString(ms: seq<Member>, name: string, field: string) {
    && KeepsString(ms, name, field)
    && ((forall i :: 0 <= i < |ms| && Spells(ms[i], name) ==> ms[i].value == NULL) ==> field == "")
  }

  predicate HoldsField(isAtt: Value -> bool, ms: seq<Member>, field: Option<Value>) {
    && KeepsAttachments(isAtt, ms, field)
    && ((forall i :: 0 <= i < |ms| ==> !Spells(ms[i], "_attachments")) ==> field == None)
  }

  /** Data has the last value of every name but the three. */
  predicate HoldsData(ms: seq<Member>, data: Data) {
    && (forall k :: k in data ==> exists i :: 0 <= i < |ms| && ms[i].key == k)
    && forall i :: 0 <= i < |ms| && LastOfKey(ms, i) ==>
         if ms[i].key == "_id" || ms[i].key == "_rev" || ms[i].key == "_attachments" then ms[i].key !in data
         else ms[i].key in data && data[ms[i].key] == ms[i].value
  }

  lemma {:induction false} DataIsHeld(ms: seq<Member>, data: Data)
    ensures HoldsData(ms, data) <==> data == ToMap(ms) - RESERVED
  {
    hide ToMap;
    var all := ToMap(ms);
    forall i | 0 <= i < |ms| && LastOfKey(ms, i)
      ensures ms[i].key in all && all[ms[i].key] == ms[i].value
    {
      LastCounts(ms, i);
    }
    forall k | k in all
      ensures exists i :: 0 <= i < |ms| && LastOfKey(ms, i) && ms[i].key == k && all[k] == ms[i].value
    {
      var i := LastOfName(ms, k);
      assert LastOfKey(ms, i);
    }
    forall k | exists i :: 0 <= i < |ms| && ms[i].key == k
      ensures k in all
    {
      NameIsInMap(ms, k);
    }
    if HoldsData(ms, data) {
      HeldIsData(ms, data, all);
    }
  }

  lemma {:induction false} NameIsInMap(ms: seq<Member>, k: string)
    requires exists i :: 0 <= i < |ms| && ms[i].key == k
    ensures k in ToMap(ms)
    decreases |ms|
  {
    if ms[|ms| - 1].key != k {
      NameIsInMap(ms[..|ms| - 1], k);
    }
  }

  lemma {:induction false} HeldIsData(ms: seq<Member>, data: Data, all: Data)
    requires HoldsData(ms, data)
    requires forall k :: k in all ==> exists i :: 0 <= i < |ms| && LastOfKey(ms, i) && ms[i].key == k && all[k] == ms[i].value
    requires forall k :: (exists i :: 0 <= i < |ms| && ms[i].key == k) ==> k in all
    ensures data == all - RESERVED
  {
    forall k
      ensures k in data <==> k in all - RESERVED
      ensures k in data && k in all ==> data[k] == all[k]
    {
      if k in all {
        var i :| 0 <= i < |ms| && LastOfKey(ms, i) && ms[i].key == k && all[k] == ms[i].value;
        HeldUnderName(ms, data, i);
      }
    }
    hide HoldsData, LastOfKey;
  }

  lemma {:induction false} HeldUnderName(ms: seq<Member>, data: Data, i: nat)
    requires HoldsData(ms, data) && i < |ms| && LastOfKey(ms, i)
    ensures if ms[i].key in RESERVED then ms[i].key !in data else ms[i].key in data && data[ms[i].key] == ms[i].value
  {
    hide LastOfKey;
  }

  /** UnmarshalJSON succeeds with a document exactly on an object of which every spelling of `_id`
      and `_rev` holds a string or null and every spelling of `_attachments` null or attachments
      without a null entry; the document then has the last of each, and the other members. */
  lemma {:induction false} SucceedsIff(isAtt: Value -> bool, text: Lexemes, d: Doc)
    ensures Unmarshal(isAtt, text) == Success(d) <==>
            exists ms :: text == Lex(Obj(ms))
              && HoldsString(ms, "_id", d.id) && HoldsString(ms, "_rev", d.rev)
              && HoldsField(isAtt, ms, d.attachments) && HoldsData(ms, d.data)
  {
    hide AttachmentsField, StringField, HoldsString, HoldsField, HoldsData, ToMap;
    forall ms | text == Lex(Obj(ms))
      ensures Unmarshal(isAtt, text) == Success(d) <==>
              && HoldsString(ms, "_id", d.id) && HoldsString(ms, "_rev", d.rev)
              && HoldsField(isAtt, ms, d.attachments) && HoldsData(ms, d.data)
    {
      UnmarshalObject(isAtt, ms);
      ObjectGives(isAtt, ms, d);
    }
    if Unmarshal(isAtt, text) == Success(d) {
      ParseSound(text);
      var v := Parse(text).value;
      assert text == Lex(v) + [] == Lex(v);
      assert text == Lex(Obj(v.members));
    }
  }

  lemma {:induction false} ObjectGives(isAtt: Value -> bool, ms: seq<Member>, d: Doc)
    ensures UnmarshalMembers(isAtt, ms) == Success(d) <==>
            && HoldsString(ms, "_id", d.id) && HoldsString(ms, "_rev", d.rev)
            && HoldsField(isAtt, ms, d.attachments) && HoldsData(ms, d.data)
  {
    hide AttachmentsField, StringField, ToMap, KeepsString, KeepsAttachments, HoldsData;
    StringFieldIs(ms, "_id", "", d.id);
    StringFieldIs(ms, "_rev", "", d.rev);
    AttachmentsFieldIs(isAtt, ms, None, d.attachments);
    DataIsHeld(ms, d.data);
  }

  /** And it reports a syntax error exactly on what is not the text of one value. */
  lemma {:induction false} SyntaxErrorIff(isAtt: Value -> bool, text: Lexemes)
    ensures Unmarshal(isAtt, text) == Failure(Syntax) <==> !exists v :: text == Lex(v)
  {
    if v :| text == Lex(v) {
      ParseLex(v, []);
      assert Lex(v) + [] == Lex(v);
    }
    if Parse(text).Parsed? && Parse(text).rest == [] {
      ParseSound(text);
      assert text == Lex(Parse(text).value) + [] == Lex(Parse(text).value);
    }
    hide Parse, Lex, UnmarshalMembers;
    if v: Value :| text == Lex(v) && v.Obj? {
      UnmarshalObject(isAtt, v.members);
      OnlyMismatches(isAtt, v.members);
    }
  }

  lemma {:induction false} OnlyMismatches(isAtt: Value -> bool, ms: seq<Member>)
    ensures UnmarshalMembers(isAtt, ms) != Failure(Syntax)
  {
    hide AttachmentsField, StringField, ToMap;
  }

  // ---------------------------------------------------------------------------
  // The round trip
  // ---------------------------------------------------------------------------

  /** Exactly when a document comes back as it was: its attachments have no nil entry, Data has
      none of the three names themselves, and its other spellings of them, in the order of
      writing, keep the fields. */
  lemma {:induction false} RoundTripIff(isAtt: Value -> bool, d: Doc, keys: seq<string>)
    requires Listing(d.data, keys)
    ensures var ms := Members(d.data, keys);
            Unmarshal(isAtt, Lex(Obj(AllMembers(d, keys)))) == Success(d) <==>
            && Writable(isAtt, d)
            && (forall k :: k in d.data ==> k !in RESERVED)
            && KeepsString(ms, "_id", d.id) && KeepsString(ms, "_rev", d.rev)
            && KeepsAttachments(isAtt, ms, d.attachments)
  {
    var ms := Members(d.data, keys);
    hide StringField, AttachmentsField, Unmarshal, Lex, KeepsString, KeepsAttachments, Writable, Members, AttachmentsMember;
    UnmarshalOfMarshal(isAtt, d, keys);
    StringFieldIs(ms, "_id", d.id, d.id);
    StringFieldIs(ms, "_rev", d.rev, d.rev);
    WrittenAttachmentsComeBackIff(isAtt, d, ms);
    assert d.data - RESERVED == d.data <==> forall k :: k in d.data ==> k !in RESERVED by {
      if k :| k in d.data && k in RESERVED {
        assert k !in d.data - RESERVED;
      }
    }
  }

  /** Attachments that are not nil are written as an object of attachments without a nil one. */
  predicate Writable(isAtt: Value -> bool, d: Doc) {
    d.attachments.Some? ==> d.attachments.value != NULL && Harmless(isAtt, d.attachments.value)
  }

  lemma {:induction false} WrittenAttachmentsComeBackIff(isAtt: Value -> bool, d: Doc, ms: seq<Member>)
    ensures AttachmentsField(isAtt, AttachmentsMember(d) + ms, None) == Field(d.attachments) <==>
            Writable(isAtt, d) && KeepsAttachments(isAtt, ms, d.attachments)
  {
    var a := AttachmentsMember(d);
    AttachmentsFieldConcat(isAtt, a, ms, None);
    if d.attachments.Some? {
      FoldsToThemselves();
      assert a[1..] == [];
      HarmlessIff(isAtt, d.attachments.value);
    }
    hide Fold, DecodeAttachments, Harmless;
    var written := AttachmentsField(isAtt, a, None);
    if written.Field? {
      AttachmentsFieldIs(isAtt, ms, written.value, d.attachments);
      NeverNull(isAtt, ms, written.value);
    }
  }

  /** Decoding never sets the field to the value null. */
  lemma {:induction false} NeverNull(isAtt: Value -> bool, ms: seq<Member>, field: Option<Value>)
    requires field != Some(NULL)
    ensures AttachmentsField(isAtt, ms, field) != Field(Some(NULL))
    decreases |ms|
  {
    hide Fold, DecodeAttachments;
    if ms != [] {
      NeverNull(isAtt, ms[1..], field);
      NeverNull(isAtt, ms[1..], None);
      if ms[0].value != NULL {
        NeverNull(isAtt, ms[1..], Some(ms[0].value));
      }
    }
  }

  /** In particular, a document whose Data uses no reserved name comes back as it was.  Names are
      compared as UnmarshalJSON compares them, without regard to case. */
  lemma {:induction false} RoundTrip(isAtt: Value -> bool, d: Doc, keys: seq<string>)
    requires Listing(d.data, keys) && Writable(isAtt, d)
    requires forall k :: k in d.data ==> Fold(k) !in RESERVED
    ensures Unmarshal(isAtt, Lex(Obj(AllMembers(d, keys)))) == Success(d)
  {
    hide Unmarshal, Lex, Writable;
    FoldsToThemselves();
    var ms := Members(d.data, keys);
    forall i | 0 <= i < |ms|
      ensures Fold(ms[i].key) !in RESERVED
    {
      assert keys[i] in keys;
    }
    RoundTripIff(isAtt, d, keys);
  }

  /** `_ID` in Data takes the place of the document's own ID. */
  lemma {:induction false} OtherSpellingOfIdWins(isAtt: Value -> bool, id: string, rev: string, x: string)
    ensures var d := Doc(id, rev, None, map["_ID" := Str(x)]);
            Unmarshal(isAtt, Lex(Obj(AllMembers(d, ["_ID"])))) == Success(d.(id := x))
  {
    var d := Doc(id, rev, None, map["_ID" := Str(x)]);
    var ms := Members(d.data, ["_ID"]);
    assert Listing(d.data, ["_ID"]);
    UnmarshalOfMarshal(isAtt, d, ["_ID"]);
    assert ms == [Member("_ID", Str(x))];
    assert Fold("_ID") == "_id";
    hide Fold;
    assert StringField(ms[1..], "_id", x) == Ok(x);
    assert d.data - RESERVED == d.data;
  }
}
