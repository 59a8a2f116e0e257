/** Reviewed `-o Key=Value` settings of the ssh command: parsing, display, and what passes the review. */
module SshOptions {
  import opened Text
  import opened Wrappers

  datatype Key =
    | Port | User | HostName | IdentityFile | IdentitiesOnly | ProxyJump
    | ConnectTimeout | ServerAliveInterval | ServerAliveCountMax

  datatype SshOption = SshOption(key: Key, value: string)

  datatype ParseError = MissingEquals | UnsupportedKey(raw: string) | InvalidValue(key: Key)

  datatype Parsed = Accepted(option: SshOption) | Rejected(error: ParseError)

  function Name(key: Key): string {
    match key
    case Port => "Port"
    case User => "User"
    case HostName => "HostName"
    case IdentityFile => "IdentityFile"
    case IdentitiesOnly => "IdentitiesOnly"
    case ProxyJump => "ProxyJump"
    case ConnectTimeout => "ConnectTimeout"
    case ServerAliveInterval => "ServerAliveInterval"
    case ServerAliveCountMax => "ServerAliveCountMax"
  }

  function LowerName(key: Key): string {
    match key
    case Port => "port"
    case User => "user"
    case HostName => "hostname"
    case IdentityFile => "identityfile"
    case IdentitiesOnly => "identitiesonly"
    case ProxyJump => "proxyjump"
    case ConnectTimeout => "connecttimeout"
    case ServerAliveInterval => "serveraliveinterval"
    case ServerAliveCountMax => "serveralivecountmax"
  }

  /** The reviewed key that a name in any case stands for. */
  function ReviewedKey(raw: string): Option<Key> {
    var low := Lower(raw);
    if low == LowerName(Port) then Some(Port)
    else if low == LowerName(User) then Some(User)
    else if low == LowerName(HostName) then Some(HostName)
    else if low == LowerName(IdentityFile) then Some(IdentityFile)
    else if low == LowerName(IdentitiesOnly) then Some(IdentitiesOnly)
    else if low == LowerName(ProxyJump) then Some(ProxyJump)
    else if low == LowerName(ConnectTimeout) then Some(ConnectTimeout)
    else if low == LowerName(ServerAliveInterval) then Some(ServerAliveInterval)
    else if low == LowerName(ServerAliveCountMax) then Some(ServerAliveCountMax)
    else None
  }

  /** The control characters of Unicode. */
  predicate IsControl(c: char) {
    c <= '\U{1F}' || '\U{7F}' <= c <= '\U{9F}'
  }

  predicate HasControl(s: string) {
    exists i :: 0 <= i < |s| && IsControl(s[i])
  }

  predicate IsDigits(s: string) {
    s != "" && forall i :: 0 <= i < |s| ==> '0' <= s[i] <= '9'
  }

  /** An unsigned integer: digits, with one plus sign in front if you like. */
  function Unsigned(s: string, max: nat): Option<int> {
    var digits := if s != "" && s[0] == '+' then s[1..] else s;
    if IsDigits(digits) && Value(digits) <= max then Some(Value(digits)) else None
  }

  predicate ValidValue(key: Key, value: string) {
    && value != "" && !HasControl(value)
    && match key
       case Port => Unsigned(value, 0xFFFF).Some? && Unsigned(value, 0xFFFF).value != 0
       case ConnectTimeout | ServerAliveInterval | ServerAliveCountMax =>
         Unsigned(value, 0xFFFF_FFFF).Some? && Unsigned(value, 0xFFFF_FFFF).value <= 86_400
       case IdentitiesOnly => Lower(value) == "yes" || Lower(value) == "no"
       case _ => true
  }

  /** The first `=`, or the length of the text. */
  function EqualsSign(s: string): (r: nat)
    ensures r <= |s| && (r < |s| ==> s[r] == '=')
    ensures forall i :: 0 <= i < r ==> s[i] != '='
  {
    if s == "" || s[0] == '=' then 0 else 1 + EqualsSign(s[1..])
  }

  function Parse(raw: string): Parsed {
    var split := EqualsSign(raw);
    if split == |raw| then Rejected(MissingEquals)
    else
      match ReviewedKey(raw[..split])
      case None => Rejected(UnsupportedKey(raw[..split]))
      case Some(key) =>
        if ValidValue(key, raw[split + 1..]) then Accepted(SshOption(key, raw[split + 1..]))
        else Rejected(InvalidValue(key))
  }

  function Display(option: SshOption): string {
    Name(option.key) + "=" + option.value
  }

  // ----- What the review promises -----

  lemma LowerNamesDiffer()
    ensures forall a: Key, b: Key :: LowerName(a) == LowerName(b) ==> a == b
  {
    assert LowerName(ServerAliveInterval)[11] == 'i' && LowerName(ServerAliveCountMax)[11] == 'c';
    assert LowerName(Port)[0] == 'p' && LowerName(User)[0] == 'u';
    assert LowerName(IdentitiesOnly)[0] == 'i' && LowerName(ConnectTimeout)[0] == 'c';
  }

  lemma ServerNamesAreLowered(key: Key)
    requires key.ServerAliveInterval? || key.ServerAliveCountMax?
    ensures Lower(Name(key)) == LowerName(key)
  {
    hide Lower;
    LowerIs(Name(key), LowerName(key));
  }

  lemma OtherNamesAreLowered(key: Key)
    requires !key.ServerAliveInterval? && !key.ServerAliveCountMax?
    ensures Lower(Name(key)) == LowerName(key)
  {
    hide Lower;
    LowerIs(Name(key), LowerName(key));
  }

  lemma NamesAreLowered(key: Key)
    ensures Lower(Name(key)) == LowerName(key)
  {
    hide Lower, Name, LowerName;
    if key.ServerAliveInterval? || key.ServerAliveCountMax? {
      ServerNamesAreLowered(key);
    } else {
      OtherNamesAreLowered(key);
    }
  }

  lemma LowerNameHasNoEquals(key: Key)
    ensures forall i :: 0 <= i < |LowerName(key)| ==> LowerName(key)[i] != '='
  {
  }

  /** The table of keys is read in any case, and no two keys share a name. */
  lemma ReviewedKeyIs(raw: string, key: Key)
    ensures ReviewedKey(raw) == Some(key) <==> Lower(raw) == LowerName(key)
  {
    hide Lower, LowerName;
    LowerNamesDiffer();
  }

  lemma ReviewedHasNoEquals(raw: string, key: Key)
    requires Lower(raw) == LowerName(key)
    ensures forall i :: 0 <= i < |raw| ==> raw[i] != '='
  {
    hide Lower, LowerName;
    LowerNameHasNoEquals(key);
    forall i: nat | i < |raw| ensures raw[i] != '=' {
      LowerAt(raw, i);
    }
  }

  lemma {:induction false} EqualsSignIs(key: string, value: string)
    requires forall i :: 0 <= i < |key| ==> key[i] != '='
    ensures EqualsSign(key + "=" + value) == |key|
  {
    hide EqualsSign;
    var s := key + "=" + value;
    assert s[|key|] == '=';
    assert forall i :: 0 <= i < |key| ==> s[i] == key[i];
  }

  /** Exactly the texts of a reviewed key in any case, an equals sign, and a valid value are accepted. */
  lemma ParseAccepts(raw: string, option: SshOption)
    ensures Parse(raw) == Accepted(option) <==>
            && ValidValue(option.key, option.value)
            && exists key :: Lower(key) == LowerName(option.key) && raw == key + "=" + option.value
  {
    hide Lower, LowerName, ValidValue, ReviewedKey, EqualsSign;
    var split := EqualsSign(raw);
    if Parse(raw) == Accepted(option) {
      ReviewedKeyIs(raw[..split], option.key);
      assert raw == raw[..split] + "=" + raw[split + 1..];
    }
    forall key | Lower(key) == LowerName(option.key) && raw == key + "=" + option.value && ValidValue(option.key, option.value)
      ensures Parse(raw) == Accepted(option)
    {
      ReviewedHasNoEquals(key, option.key);
      EqualsSignIs(key, option.value);
      assert raw[..|key|] == key && raw[|key| + 1..] == option.value;
      ReviewedKeyIs(key, option.key);
    }
  }

  /** An option is displayed in canonical form, and parsing that form gives it back. */
  lemma DisplayIsReadBack(raw: string, option: SshOption)
    requires Parse(raw) == Accepted(option)
    ensures Parse(Display(option)) == Accepted(option)
  {
    hide Lower, LowerName, Name, ValidValue, Parse;
    ParseAccepts(raw, option);
    NamesAreLowered(option.key);
    ParseAccepts(Display(option), option);
  }

  /** No equals sign, or a name in front of the first one that is no reviewed key: the causes of rejection. */
  lemma ParseRejects(raw: string, name: string)
    ensures Parse(raw) == Rejected(MissingEquals) <==> '=' !in raw
    ensures Parse(raw) == Rejected(UnsupportedKey(name)) <==>
              name + "=" <= raw && '=' !in name && forall key :: Lower(name) != LowerName(key)
  {
    hide Lower, LowerName, ValidValue, ReviewedKey, EqualsSign;
    var split := EqualsSign(raw);
    forall key: Key { ReviewedKeyIs(name, key); }
    if name + "=" <= raw && '=' !in name {
      EqualsSignIs(name, raw[|name| + 1..]);
      assert raw == name + "=" + raw[|name| + 1..] && raw[..|name|] == name;
    }
    if split < |raw| && raw[..split] == name {
      assert name + "=" == raw[..split + 1];
    }
  }

  /** The canonical form in which an option is shown, in whatever case its key was written. */
  lemma CanonicalForm(value: string)
    ensures Display(SshOption(Port, value)) == "Port=" + value
    ensures Display(SshOption(User, value)) == "User=" + value
    ensures Display(SshOption(HostName, value)) == "HostName=" + value
    ensures Display(SshOption(IdentityFile, value)) == "IdentityFile=" + value
    ensures Display(SshOption(IdentitiesOnly, value)) == "IdentitiesOnly=" + value
    ensures Display(SshOption(ProxyJump, value)) == "ProxyJump=" + value
    ensures Display(SshOption(ConnectTimeout, value)) == "ConnectTimeout=" + value
    ensures Display(SshOption(ServerAliveInterval, value)) == "ServerAliveInterval=" + value
    ensures Display(SshOption(ServerAliveCountMax, value)) == "ServerAliveCountMax=" + value
  {
  }

  // ----- The limits on values -----

  lemma DecimalIsUnsigned(n: nat, max: nat)
    ensures Unsigned(Decimal(n), max) == if n <= max then Some(n as int) else None
    ensures Unsigned("+" + Decimal(n), max) == if n <= max then Some(n as int) else None
    ensures !HasControl(Decimal(n)) && !HasControl("+" + Decimal(n))
  {
    hide Decimal, Value;
    ValueOfDecimal(n);
    assert ("+" + Decimal(n))[1..] == Decimal(n);
  }

  /** A port is a number from 1 to 65535, with or without a plus sign. */
  lemma PortLimits(n: nat)
    ensures ValidValue(Port, Decimal(n)) <==> 1 <= n <= 65535
    ensures ValidValue(Port, "+" + Decimal(n)) <==> 1 <= n <= 65535
  {
    hide Decimal, Value, Unsigned, HasControl;
    DecimalIsUnsigned(n, 0xFFFF);
  }

  /** The intervals and counts go from 0 to 86400. */
  lemma IntervalLimits(key: Key, n: nat)
    requires key.ConnectTimeout? || key.ServerAliveInterval? || key.ServerAliveCountMax?
    ensures ValidValue(key, Decimal(n)) <==> n <= 86400
    ensures ValidValue(key, "+" + Decimal(n)) <==> n <= 86400
  {
    hide Decimal, Value, Unsigned, HasControl;
    DecimalIsUnsigned(n, 0xFFFF_FFFF);
  }

  /** Numbers are written in digits; other values are free, but never empty and without control characters. */
  lemma OtherLimits(key: Key, value: string)
    ensures ValidValue(key, value) ==> value != "" && forall i :: 0 <= i < |value| ==> !IsControl(value[i])
    ensures key.User? || key.HostName? || key.IdentityFile? || key.ProxyJump? ==>
              (ValidValue(key, value) <==> value != "" && forall i :: 0 <= i < |value| ==> !IsControl(value[i]))
    ensures ValidValue(key, value) && (key.Port? || key.ConnectTimeout? || key.ServerAliveInterval? || key.ServerAliveCountMax?) ==>
              forall i :: 1 <= i < |value| ==> '0' <= value[i] <= '9'
    ensures ValidValue(IdentitiesOnly, value) ==> Lower(value) == "yes" || Lower(value) == "no"
  {
    hide Lower, Value;
    if value != "" && value[0] == '+' {
      assert forall i :: 1 <= i < |value| ==> value[i] == value[1..][i - 1];
    }
  }
}
