/** The authenticated user (src/User.php): a mutable object whose setters
    assign one property and return the object itself. Properties the class
    does not declare (`token`, `refreshToken`, `expiresIn`, and any other
    name `map` is given, such as `website`) are created on first assignment;
    reading one that was never assigned gives null. */
module Users {

  import opened Values

  /** The value of every property of a user at one moment. `dynamic` holds
      the properties created at run time under names other than the fixed
      ones below. */
  datatype UserRecord = UserRecord(
    id: Value,
    username: Value,
    fullname: Value,
    email: Value,
    profilePicture: Value,
    user: Value,
    token: Value,
    refreshToken: Value,
    expiresIn: Value,
    dynamic: map<string, Value>)

  /** A user as `new User` creates it: every property null. */
  const Unmapped: UserRecord :=
    UserRecord(Null, Null, Null, Null, Null, Null, Null, Null, Null, map[])

  /** Which property a name designates. */
  datatype Slot =
    | Id | Username | Fullname | Email | ProfilePicture | Raw
    | Token | RefreshToken | ExpiresIn | Dynamic(name: string)

  function SlotOf(name: string): (s: Slot)
    ensures s.Dynamic? ==> s.name == name
  {
    if name == "id" then Id
    else if name == "username" then Username
    else if name == "fullname" then Fullname
    else if name == "email" then Email
    else if name == "profilePicture" then ProfilePicture
    else if name == "user" then Raw
    else if name == "token" then Token
    else if name == "refreshToken" then RefreshToken
    else if name == "expiresIn" then ExpiresIn
    else Dynamic(name)
  }

  /** Two names designate the same property only when they are equal. */
  lemma SlotOfInjective(a: string, b: string)
    requires SlotOf(a) == SlotOf(b)
    ensures a == b
  {
  }

  /** The declared and token properties each have a slot of their own. */
  lemma FixedSlots()
    ensures SlotOf("id") == Id && SlotOf("username") == Username
    ensures SlotOf("fullname") == Fullname && SlotOf("email") == Email
    ensures SlotOf("profilePicture") == ProfilePicture && SlotOf("user") == Raw
    ensures SlotOf("token") == Token && SlotOf("refreshToken") == RefreshToken
    ensures SlotOf("expiresIn") == ExpiresIn
  {
  }

  function Read(r: UserRecord, slot: Slot): Value {
    match slot
    case Id => r.id
    case Username => r.username
    case Fullname => r.fullname
    case Email => r.email
    case ProfilePicture => r.profilePicture
    case Raw => r.user
    case Token => r.token
    case RefreshToken => r.refreshToken
    case ExpiresIn => r.expiresIn
    case Dynamic(n) => if n in r.dynamic then r.dynamic[n] else Null
  }

  function Write(r: UserRecord, slot: Slot, value: Value): UserRecord {
    match slot
    case Id => r.(id := value)
    case Username => r.(username := value)
    case Fullname => r.(fullname := value)
    case Email => r.(email := value)
    case ProfilePicture => r.(profilePicture := value)
    case Raw => r.(user := value)
    case Token => r.(token := value)
    case RefreshToken => r.(refreshToken := value)
    case ExpiresIn => r.(expiresIn := value)
    case Dynamic(n) => r.(dynamic := r.dynamic[n := value])
  }

  /** `$user->{$name}`: null for a property never assigned. */
  function Property(r: UserRecord, name: string): Value {
    Read(r, SlotOf(name))
  }

  /** `$user->{$name} = $value`. */
  function WithProperty(r: UserRecord, name: string, value: Value): UserRecord {
    Write(r, SlotOf(name), value)
  }

  lemma ReadWrite(r: UserRecord, slot: Slot, value: Value, other: Slot)
    ensures Read(Write(r, slot, value), other) == if other == slot then value else Read(r, other)
  {
    match slot
    case Dynamic(n) =>
    case _ =>
  }

  /** Assigning a property changes that property and no other. */
  lemma WithPropertyEffect(r: UserRecord, name: string, value: Value, other: string)
    ensures Property(WithProperty(r, name, value), other) == if other == name then value else Property(r, other)
  {
    ReadWrite(r, SlotOf(name), value, SlotOf(other));
    if other != name && SlotOf(other) == SlotOf(name) {
      SlotOfInjective(other, name);
    }
  }

  /** The effect of `map($attributes)`: each entry assigned in turn. */
  function MapAttributes(r: UserRecord, attributes: seq<(string, Value)>): UserRecord
    decreases |attributes|
  {
    if attributes == [] then r
    else
      var last := attributes[|attributes| - 1];
      WithProperty(MapAttributes(r, attributes[..|attributes| - 1]), last.0, last.1)
  }

  /** After `map`, every listed property holds its listed value and every
      other property is unchanged. */
  lemma {:induction false} MapAttributesEffect(r: UserRecord, attributes: seq<(string, Value)>, name: string)
    requires UniqueKeys(attributes)
    ensures Property(MapAttributes(r, attributes), name) ==
            match Find(attributes, name)
            case Some(v) => v
            case None => Property(r, name)
    decreases |attributes|
  {
    if attributes != [] {
      var n := |attributes| - 1;
      var init := attributes[..n];
      assert attributes == init + [attributes[n]];
      assert Keys(attributes) == Keys(init) + [attributes[n].0];
      assert UniqueKeys(init) by {
        assert Keys(init) == Keys(attributes)[..n];
      }
      MapAttributesEffect(r, init, name);
      WithPropertyEffect(MapAttributes(r, init), attributes[n].0, attributes[n].1, name);
      FindSnoc(init, attributes[n].0, attributes[n].1, name);
      if name == attributes[n].0 {
        assert name !in Keys(init) by {
          assert Keys(attributes)[n] == name;
          assert Keys(init) == Keys(attributes)[..n];
        }
      }
    }
  }

  class User {
    var id: Value
    var username: Value
    var fullname: Value
    var email: Value
    var profilePicture: Value
    var user: Value
    var token: Value
    var refreshToken: Value
    var expiresIn: Value
    var dynamic: map<string, Value>

    /** The value of every property now. */
    function Snapshot(): UserRecord
      reads this
    {
      UserRecord(id, username, fullname, email, profilePicture, user, token, refreshToken, expiresIn, dynamic)
    }

    /** `new User`: no property set yet. */
    constructor ()
      ensures Snapshot() == Unmapped
    {
      id, username, fullname, email, profilePicture := Null, Null, Null, Null, Null;
      user, token, refreshToken, expiresIn := Null, Null, Null, Null;
      dynamic := map[];
    }

    /** `$this->{$name} = $value`. */
    method SetProperty(name: string, value: Value)
      modifies this
      ensures Snapshot() == WithProperty(old(Snapshot()), name, value)
    {
      match SlotOf(name)
      case Id => id := value;
      case Username => username := value;
      case Fullname => fullname := value;
      case Email => email := value;
      case ProfilePicture => profilePicture := value;
      case Raw => user := value;
      case Token => token := value;
      case RefreshToken => refreshToken := value;
      case ExpiresIn => expiresIn := value;
      case Dynamic(n) => dynamic := dynamic[n := value];
    }

    /** `map($attributes)`: assigns each entry in order and returns the user. */
    method Map(attributes: seq<(string, Value)>) returns (self: User)
      modifies this
      ensures self == this
      ensures Snapshot() == MapAttributes(old(Snapshot()), attributes)
    {
      var i := 0;
      while i < |attributes|
        invariant 0 <= i <= |attributes|
        invariant Snapshot() == MapAttributes(old(Snapshot()), attributes[..i])
      {
        SetProperty(attributes[i].0, attributes[i].1);
        assert attributes[..i + 1][..i] == attributes[..i];
        i := i + 1;
      }
      assert attributes[..i] == attributes;
      self := this;
    }

    /** `setRaw($user)`: keeps the provider's payload, an array. */
    method SetRaw(raw: Value) returns (self: User)
      requires raw.Arr?
      modifies this
      ensures self == this
      ensures Snapshot() == old(Snapshot()).(user := raw)
    {
      user := raw;
      self := this;
    }

    method SetToken(t: Value) returns (self: User)
      modifies this
      ensures self == this
      ensures Snapshot() == old(Snapshot()).(token := t)
    {
      token := t;
      self := this;
    }

    method SetRefreshToken(t: Value) returns (self: User)
      modifies this
      ensures self == this
      ensures Snapshot() == old(Snapshot()).(refreshToken := t)
    {
      refreshToken := t;
      self := this;
    }

    method SetExpiresIn(seconds: Value) returns (self: User)
      modifies this
      ensures self == this
      ensures Snapshot() == old(Snapshot()).(expiresIn := seconds)
    {
      expiresIn := seconds;
      self := this;
    }

    function GetId(): (r: Value)
      reads this
      ensures r == Property(Snapshot(), "id")
    {
      id
    }

    function GetUserName(): (r: Value)
      reads this
      ensures r == Property(Snapshot(), "username")
    {
      username
    }

    function GetFullName(): (r: Value)
      reads this
      ensures r == Property(Snapshot(), "fullname")
    {
      fullname
    }

    function GetEmail(): (r: Value)
      reads this
      ensures r == Property(Snapshot(), "email")
    {
      email
    }

    function GetProfilePicture(): (r: Value)
      reads this
      ensures r == Property(Snapshot(), "profilePicture")
    {
      profilePicture
    }

    /** `getRaw()`: the payload `setRaw` kept. */
    function GetRaw(): (r: Value)
      reads this
      ensures r == Property(Snapshot(), "user")
    {
      user
    }
  }
}
