/** Secrets split over several keyring items, with a format marker as the commit
    point. The keyring records every state it passes through, so that a promise
    about its log is a promise about a crash between any two operations. */
module Credentials {
  import opened Common

  datatype Secret = Secret(password: string, clientSecret: string, accessToken: string, refreshToken: string) {
    predicate Empty() {
      password == "" && clientSecret == "" && accessToken == "" && refreshToken == ""
    }
  }

  datatype Field = Password | ClientSecret | AccessToken | RefreshToken

  /** The fields in the order they are written and read. */
  const FIELDS: seq<Field> := [Password, ClientSecret, AccessToken, RefreshToken]

  function Value(s: Secret, f: Field): string {
    match f
    case Password => s.password
    case ClientSecret => s.clientSecret
    case AccessToken => s.accessToken
    case RefreshToken => s.refreshToken
  }

  function Assign(s: Secret, f: Field, value: string): Secret {
    match f
    case Password => s.(password := value)
    case ClientSecret => s.(clientSecret := value)
    case AccessToken => s.(accessToken := value)
    case RefreshToken => s.(refreshToken := value)
  }

  const SPLIT_FORMAT := "2"

  const BLANK: Secret := Secret("", "", "", "")

  /** The keyring services of one profile. */
  datatype Service = Format | Item(field: Field)

  type Items = map<Service, string>

  datatype Reading = Found(secret: Secret) | NotFound | Incomplete | Unsupported(format: string) | Unavailable

  function Stored(items: Items, f: Field): string {
    if Item(f) in items then items[Item(f)] else ""
  }

  /** What the items of a profile say, in the terms of its caller. */
  function Read(items: Items): Reading {
    if Format !in items then NotFound
    else if items[Format] != SPLIT_FORMAT then Unsupported(items[Format])
    else if forall f :: Item(f) !in items then Incomplete
    else Found(Secret(Stored(items, Password), Stored(items, ClientSecret),
                      Stored(items, AccessToken), Stored(items, RefreshToken)))
  }

  class Keyring {
    var items: Items
    var log: seq<Items>
    var operations: nat
    const fails: nat -> bool

    constructor (items: Items, fails: nat -> bool)
      ensures this.items == items && log == []
    {
      this.items, this.fails := items, fails;
      log, operations := [], 0;
    }

    method Put(service: Service, value: string) returns (ok: bool)
      modifies this
      ensures items == if ok then old(items)[service := value] else old(items)
      ensures log == old(log) + [items]
    {
      ok := !fails(operations);
      operations := operations + 1;
      if ok {
        items := items[service := value];
      }
      log := log + [items];
    }

    /** Deleting an absent item succeeds. */
    method Drop(service: Service) returns (ok: bool)
      modifies this
      ensures items == if ok then old(items) - {service} else old(items)
      ensures log == old(log) + [items]
    {
      ok := !fails(operations);
      operations := operations + 1;
      if ok {
        items := items - {service};
      }
      log := log + [items];
    }

    method Lookup(service: Service) returns (ok: bool, value: Option<string>)
      modifies this`operations
      ensures operations == old(operations) + 1 && ok == !fails(old(operations))
      ensures ok ==> value == if service in items then Some(items[service]) else None
    {
      ok := !fails(operations);
      operations := operations + 1;
      value := if service in items then Some(items[service]) else None;
    }
  }

  /** Every state logged since `base` reads as one of two results. */
  ghost predicate ReadsAs(log: seq<Items>, base: nat, was: Reading, becomes: Reading) {
    base <= |log| && forall k :: base <= k < |log| ==>
                                   Read(log[k]) == was || Read(log[k]) == NotFound || Read(log[k]) == becomes
  }

  /** Some lookup since `first` failed. */
  ghost predicate LookupFailed(keyring: Keyring, first: nat)
    reads keyring
  {
    exists k :: first <= k < keyring.operations && keyring.fails(k)
  }

  method GetSplit(keyring: Keyring) returns (ok: bool, secret: Secret, found: bool)
    modifies keyring`operations
    ensures old(keyring.operations) <= keyring.operations
    ensures !ok ==> LookupFailed(keyring, old(keyring.operations))
    ensures ok ==> (found <==> exists f :: Item(f) in keyring.items)
    ensures ok ==> forall f :: Value(secret, f) == Stored(keyring.items, f)
  {
    secret, found, ok := BLANK, false, true;
    for i := 0 to |FIELDS|
      invariant old(keyring.operations) <= keyring.operations
      invariant found <==> exists k :: 0 <= k < i && Item(FIELDS[k]) in keyring.items
      invariant forall k :: 0 <= k < i ==> Value(secret, FIELDS[k]) == Stored(keyring.items, FIELDS[k])
      invariant forall k :: i <= k < |FIELDS| ==> Value(secret, FIELDS[k]) == ""
    {
      var value;
      ok, value := keyring.Lookup(Item(FIELDS[i]));
      if !ok {
        return;
      }
      if value.Some? {
        secret := Assign(secret, FIELDS[i], value.value);
        found := true;
      }
    }
    AllFields(keyring.items);
    forall f ensures Value(secret, f) == Stored(keyring.items, f) {
      var k := IndexOfField(f);
    }
  }

  lemma IndexOfField(f: Field) returns (k: nat)
    ensures k < |FIELDS| && FIELDS[k] == f
  {
    k := match f case Password => 0 case ClientSecret => 1 case AccessToken => 2 case RefreshToken => 3;
  }

  lemma AllFields(items: Items)
    ensures (exists f :: Item(f) in items) <==> exists k :: 0 <= k < |FIELDS| && Item(FIELDS[k]) in items
  {
    if f :| Item(f) in items {
      var k := IndexOfField(f);
    }
  }

  /** Reads a profile's secret; nothing is changed. Without an answer only when a
      lookup failed. */
  method Get(keyring: Keyring) returns (r: Reading)
    modifies keyring`operations
    ensures r == Unavailable || r == Read(keyring.items)
    ensures r.Found? ==>
              && Format in keyring.items && keyring.items[Format] == "2"
              && r.secret.password == Stored(keyring.items, Password)
              && r.secret.clientSecret == Stored(keyring.items, ClientSecret)
              && r.secret.accessToken == Stored(keyring.items, AccessToken)
              && r.secret.refreshToken == Stored(keyring.items, RefreshToken)
    ensures r == NotFound ==> Format !in keyring.items
    ensures r.Unsupported? ==> Format in keyring.items && keyring.items[Format] == r.format != "2"
    ensures r == Incomplete ==>
              Format in keyring.items && keyring.items[Format] == "2" && forall f :: Item(f) !in keyring.items
    ensures r == Unavailable ==> LookupFailed(keyring, old(keyring.operations))
  {
    var ok, format := keyring.Lookup(Format);
    if !ok {
      return Unavailable;
    }
    if format.None? {
      return NotFound;
    }
    if format.value != SPLIT_FORMAT {
      return Unsupported(format.value);
    }
    var secret, found;
    ok, secret, found := GetSplit(keyring);
    if !ok {
      return Unavailable;
    }
    if !found {
      return Incomplete;
    }
    assert secret == Secret(Value(secret, Password), Value(secret, ClientSecret),
                            Value(secret, AccessToken), Value(secret, RefreshToken));
    return Found(secret);
  }

  /** Removes the marker first, then every item. Interrupted anywhere, the
      profile reads as it did or as not found. */
  method Delete(keyring: Keyring) returns (ok: bool)
    modifies keyring
    ensures ReadsAs(keyring.log, |old(keyring.log)|, Read(old(keyring.items)), NotFound)
    ensures ok ==> keyring.items.Keys !! {Format, Item(Password), Item(ClientSecret), Item(AccessToken),
                                          Item(RefreshToken)}
    ensures ok ==> Read(keyring.items) == NotFound
  {
    ghost var base := |keyring.log|;
    ok := keyring.Drop(Format);
    if !ok {
      return;
    }
    for i := 0 to |FIELDS|
      invariant Format !in keyring.items
      invariant forall k :: 0 <= k < i ==> Item(FIELDS[k]) !in keyring.items
      invariant ReadsAs(keyring.log, base, Read(old(keyring.items)), NotFound)
    {
      ok := keyring.Drop(Item(FIELDS[i]));
      if !ok {
        return;
      }
    }
    assert Item(FIELDS[0]) !in keyring.items && Item(FIELDS[1]) !in keyring.items
           && Item(FIELDS[2]) !in keyring.items && Item(FIELDS[3]) !in keyring.items;
  }

  /** The fields before `bound` are stored as the secret has them. */
  ghost predicate Written(items: Items, secret: Secret, bound: int) {
    forall k :: 0 <= k < bound && k < |FIELDS| ==>
                  if Value(secret, FIELDS[k]) == "" then Item(FIELDS[k]) !in items
                  else Item(FIELDS[k]) in items && items[Item(FIELDS[k])] == Value(secret, FIELDS[k])
  }

  lemma WrittenIsRead(items: Items, secret: Secret)
    requires Written(items, secret, |FIELDS|) && !secret.Empty()
    requires Format in items && items[Format] == SPLIT_FORMAT
    ensures Read(items) == Found(secret)
  {
    forall f ensures Stored(items, f) == Value(secret, f) && (Value(secret, f) != "" ==> Item(f) in items) {
      var k := IndexOfField(f);
    }
    assert Value(secret, Password) != "" || Value(secret, ClientSecret) != ""
           || Value(secret, AccessToken) != "" || Value(secret, RefreshToken) != "";
  }

  /** A field has its own item, unless it is empty. */
  predicate Kept(items: Items, f: Field, value: string) {
    if value == "" then Item(f) !in items else Item(f) in items && items[Item(f)] == value
  }

  lemma WrittenIsKept(items: Items, secret: Secret)
    requires Written(items, secret, |FIELDS|)
    ensures Kept(items, Password, secret.password) && Kept(items, ClientSecret, secret.clientSecret)
    ensures Kept(items, AccessToken, secret.accessToken) && Kept(items, RefreshToken, secret.refreshToken)
  {
    forall f ensures Kept(items, f, Value(secret, f)) {
      var k := IndexOfField(f);
    }
    assert Kept(items, Password, Value(secret, Password)) && Kept(items, ClientSecret, Value(secret, ClientSecret));
    assert Kept(items, AccessToken, Value(secret, AccessToken));
    assert Kept(items, RefreshToken, Value(secret, RefreshToken));
  }

  /** Credential commit: from any keyring state, interrupted or failing anywhere,
      the profile reads as it did before, as not found, or as the complete new
      secret; and once saved it reads as exactly the new secret. */
  method Set(keyring: Keyring, secret: Secret) returns (ok: bool)
    modifies keyring
    ensures var after := if secret.Empty() then NotFound else Found(secret);
            && ReadsAs(keyring.log, |old(keyring.log)|, Read(old(keyring.items)), after)
            && (ok ==> Read(keyring.items) == after)
    ensures ok && !secret.Empty() ==> Format in keyring.items && keyring.items[Format] == "2"
    ensures ok && !secret.Empty() ==>
              && Kept(keyring.items, Password, secret.password)
              && Kept(keyring.items, ClientSecret, secret.clientSecret)
              && Kept(keyring.items, AccessToken, secret.accessToken)
              && Kept(keyring.items, RefreshToken, secret.refreshToken)
  {
    if secret.Empty() {
      ok := Delete(keyring);
      return;
    }
    ghost var base := |keyring.log|;
    ok := keyring.Drop(Format);
    if !ok {
      return;
    }
    for i := 0 to |FIELDS|
      invariant Format !in keyring.items && Written(keyring.items, secret, i)
      invariant ReadsAs(keyring.log, base, Read(old(keyring.items)), Found(secret))
    {
      var value := Value(secret, FIELDS[i]);
      if value == "" {
        ok := keyring.Drop(Item(FIELDS[i]));
      } else {
        ok := keyring.Put(Item(FIELDS[i]), value);
      }
      if !ok {
        return;
      }
    }
    ghost var unmarked := keyring.items;
    WrittenIsRead(unmarked[Format := SPLIT_FORMAT], secret);
    WrittenIsKept(unmarked[Format := SPLIT_FORMAT], secret);
    ok := keyring.Put(Format, SPLIT_FORMAT);
  }
}
