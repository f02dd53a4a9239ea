/**
 The comma-joined encodings of roles and permissions: a role stores its permissions in one text
 column, and the user listing gets all role ids, names and permissions of a user as joined texts.
 */
module Roles {
  import opened Prelude
  import opened Decimal

  datatype Role = Role(id: int, name: string)

  predicate CommaFree(s: string) {
    ',' !in s
  }

  ghost predicate AllCommaFree(items: seq<string>) {
    forall i :: 0 <= i < |items| ==> CommaFree(items[i])
  }

  /** `items.join(",")`, and the database's `group_concat`. */
  function Join(items: seq<string>): string {
    if items == [] then ""
    else if |items| == 1 then items[0]
    else items[0] + "," + Join(items[1..])
  }

  /** `text.split(',')`: always at least one piece. */
  function Split(text: string): (pieces: seq<string>)
    ensures pieces != []
    ensures forall i :: 0 <= i < |pieces| ==> CommaFree(pieces[i])
  {
    if text == "" then [""]
    else if text[0] == ',' then [""] + Split(text[1..])
    else
      var rest := Split(text[1..]);
      [[text[0]] + rest[0]] + rest[1..]
  }

  lemma {:induction false} SplitCommaFree(s: string)
    requires CommaFree(s)
    ensures Split(s) == [s]
  {
    if s != "" {
      SplitCommaFree(s[1..]);
      assert [s[0]] + s[1..] == s && [s[1..]][1..] == [];
    }
  }

  /** Splitting distributes over a comma, whatever stands on either side. */
  lemma {:induction false} SplitAtComma(a: string, b: string)
    ensures Split(a + "," + b) == Split(a) + Split(b)
  {
    var text := a + "," + b;
    if a == "" {
      assert text[1..] == b;
    } else {
      assert text[1..] == a[1..] + "," + b;
      SplitAtComma(a[1..], b);
    }
  }

  function FlatSplit(items: seq<string>): seq<string> {
    if items == [] then [] else Split(items[0]) + FlatSplit(items[1..])
  }

  lemma {:induction false} SplitOfJoin(items: seq<string>)
    requires items != []
    ensures Split(Join(items)) == FlatSplit(items)
  {
    if |items| == 1 {
      assert FlatSplit(items[1..]) == [];
    } else {
      SplitOfJoin(items[1..]);
      SplitAtComma(items[0], Join(items[1..]));
    }
  }

  lemma {:induction false} FlatSplitCommaFree(items: seq<string>)
    requires AllCommaFree(items)
    ensures FlatSplit(items) == items
  {
    if items != [] {
      SplitCommaFree(items[0]);
      FlatSplitCommaFree(items[1..]);
    }
  }

  /** A stored list comes back unchanged exactly when it is non-empty and free of commas. */
  lemma PermissionsSurviveIff(permissions: seq<string>)
    ensures Split(Join(permissions)) == permissions <==> permissions != [] && AllCommaFree(permissions)
  {
    if permissions != [] && AllCommaFree(permissions) {
      SplitOfJoin(permissions);
      FlatSplitCommaFree(permissions);
    }
  }

  /** `validate_permission_name` lets exactly the comma-free lists through. */
  method ValidatePermissionNames(permissions: seq<string>) returns (ok: bool)
    ensures ok <==> AllCommaFree(permissions)
    ensures ok && permissions != [] ==> Split(Join(permissions)) == permissions
  {
    ok := true;
    for i := 0 to |permissions|
      invariant ok <==> AllCommaFree(permissions[..i])
    {
      if ',' in permissions[i] {
        ok := false;
      }
      assert permissions[..i + 1] == permissions[..i] + [permissions[i]];
    }
    assert permissions[..|permissions|] == permissions;
    PermissionsSurviveIff(permissions);
  }

  // ---------------------------------------------------------------- roles of a user

  /** How an id is read; `get_roles` reads an `i64`. */
  type ParseId = string -> Option<int>

  /** Pairs ids with names until an id does not read as a number or either side ends. */
  function PairUp(parse: ParseId, ids: seq<string>, names: seq<string>): seq<Role> {
    if ids == [] || parse(ids[0]).None? || names == [] then []
    else [Role(parse(ids[0]).value, names[0])] + PairUp(parse, ids[1..], names[1..])
  }

  /** The pairs are those at the same places, up to the first id that cannot be read or the end of either side. */
  lemma {:induction false} PairUpMeaning(parse: ParseId, ids: seq<string>, names: seq<string>)
    ensures var res := PairUp(parse, ids, names);
            && |res| <= |ids| && |res| <= |names|
            && (forall i :: 0 <= i < |res| ==> parse(ids[i]) == Some(res[i].id) && names[i] == res[i].name)
            && (|res| < |ids| && |res| < |names| ==> parse(ids[|res|]).None?)
  {
    if ids != [] && parse(ids[0]).Some? && names != [] {
      PairUpMeaning(parse, ids[1..], names[1..]);
    }
  }

  /** Moving the first pair from the pairs to come to the pairs pushed. */
  lemma PairedOne(parse: ParseId, res: seq<Role>, ids: seq<string>, names: seq<string>, i: nat)
    requires i < |ids| && i < |names| && parse(ids[i]).Some?
    ensures res + PairUp(parse, ids[i..], names[i..])
         == res + [Role(parse(ids[i]).value, names[i])] + PairUp(parse, ids[i + 1..], names[i + 1..])
  {
    var pair, rest := [Role(parse(ids[i]).value, names[i])], PairUp(parse, ids[i + 1..], names[i + 1..]);
    assert ids[i..][1..] == ids[i + 1..] && names[i..][1..] == names[i + 1..];
    assert PairUp(parse, ids[i..], names[i..]) == pair + rest;
    ConcatAssociative(res, pair, rest);
  }

  /** The loop of `get_roles`, advancing two iterators in step. */
  method PairPieces(parse: ParseId, ids: seq<string>, names: seq<string>) returns (res: seq<Role>)
    ensures res == PairUp(parse, ids, names)
  {
    res := [];
    var i := 0;
    ghost var all := PairUp(parse, ids, names);
    while true
      invariant 0 <= i <= |ids| && i <= |names|
      invariant res + PairUp(parse, ids[i..], names[i..]) == all
      decreases |ids| - i
    {
      if i == |ids| {
        break;
      }
      var id := parse(ids[i]);
      if id.None? {
        break;
      }
      if i == |names| {
        break;
      }
      PairedOne(parse, res, ids, names, i);
      res := res + [Role(id.value, names[i])];
      i := i + 1;
    }
  }

  /** `get_roles` */
  method GetRoles(ids: string, names: string) returns (res: seq<Role>)
    ensures res == PairUp(ParseI64, Split(ids), Split(names))
    ensures var ids, names := Split(ids), Split(names);
            && |res| <= |ids| && |res| <= |names|
            && (forall i :: 0 <= i < |res| ==> ParseI64(ids[i]) == Some(res[i].id) && names[i] == res[i].name)
            && (|res| < |ids| && |res| < |names| ==> ParseI64(ids[|res|]).None?)
  {
    PairUpMeaning(ParseI64, Split(ids), Split(names));
    res := PairPieces(ParseI64, Split(ids), Split(names));
  }

  function IdTexts(roles: seq<Role>): seq<string> {
    seq(|roles|, i requires 0 <= i < |roles| => PrintInt(roles[i].id))
  }

  function RoleNames(roles: seq<Role>): seq<string> {
    seq(|roles|, i requires 0 <= i < |roles| => roles[i].name)
  }

  ghost predicate ValidIds(roles: seq<Role>) {
    forall i :: 0 <= i < |roles| ==> -I64_LIMIT <= roles[i].id < I64_LIMIT
  }

  /** Against ids that read back, pairing takes the names piece by piece. */
  lemma {:induction false} PairUpRead(parse: ParseId, roles: seq<Role>, ids: seq<string>, names: seq<string>)
    requires |ids| == |roles| <= |names| && forall i :: 0 <= i < |ids| ==> parse(ids[i]) == Some(roles[i].id)
    ensures PairUp(parse, ids, names) == seq(|roles|, i requires 0 <= i < |roles| => Role(roles[i].id, names[i]))
  {
    if roles != [] {
      PairUpRead(parse, roles[1..], ids[1..], names[1..]);
    }
  }

  lemma PairUpPrinted(roles: seq<Role>, names: seq<string>)
    requires ValidIds(roles) && |names| >= |roles|
    ensures PairUp(ParseI64, IdTexts(roles), names)
         == seq(|roles|, i requires 0 <= i < |roles| => Role(roles[i].id, names[i]))
  {
    forall i | 0 <= i < |roles| ensures ParseI64(IdTexts(roles)[i]) == Some(roles[i].id) {
      ParsePrintI64(roles[i].id);
    }
    PairUpRead(ParseI64, roles, IdTexts(roles), names);
  }

  lemma IdTextsCommaFree(roles: seq<Role>)
    ensures AllCommaFree(IdTexts(roles))
  {
  }

  lemma {:induction false} FlatSplitLength(items: seq<string>)
    ensures |FlatSplit(items)| >= |items|
  {
    if items != [] {
      FlatSplitLength(items[1..]);
    }
  }

  /** The listing rebuilds a user's roles from the joined columns exactly when no role name holds a comma. */
  lemma RolesRebuiltIff(roles: seq<Role>)
    requires ValidIds(roles)
    ensures PairUp(ParseI64, Split(Join(IdTexts(roles))), Split(Join(RoleNames(roles)))) == roles <==>
            AllCommaFree(RoleNames(roles))
  {
    var names := RoleNames(roles);
    if roles == [] {
      assert Split("") == [""];
    } else {
      IdTextsCommaFree(roles);
      PermissionsSurviveIff(IdTexts(roles));
      SplitOfJoin(names);
      FlatSplitLength(names);
      PairUpPrinted(roles, Split(Join(names)));
      if AllCommaFree(names) {
        FlatSplitCommaFree(names);
      }
      var rebuilt := PairUp(ParseI64, IdTexts(roles), Split(Join(names)));
      if rebuilt == roles {
        forall i | 0 <= i < |names| ensures CommaFree(names[i]) {
          assert rebuilt[i].name == Split(Join(names))[i];
        }
      }
    }
  }

  // ---------------------------------------------------------------- permissions of a user

  function NonEmpty(items: seq<string>): seq<string> {
    if items == [] then [] else (if items[0] == "" then [] else [items[0]]) + NonEmpty(items[1..])
  }

  /** The listing's permissions: the joined columns of all roles, split, without empty pieces. */
  function BulkPermissions(stored: seq<string>): seq<string> {
    NonEmpty(Split(Join(stored)))
  }

  /** A single user's permissions: each role's column split. */
  function UserPermissions(stored: seq<string>): seq<string> {
    FlatSplit(stored)
  }

  /** For any stored columns, the listing shows the single user's permissions without the empty ones. */
  lemma BulkMatchesSingle(stored: seq<string>)
    ensures BulkPermissions(stored) == NonEmpty(UserPermissions(stored))
  {
    if stored == [] {
      assert Split("") == [""];
      assert [""][1..] == [];
    } else {
      SplitOfJoin(stored);
    }
  }
}
