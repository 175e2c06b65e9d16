/**
 * `TokenStore`: the sign-in state kept in the private preferences file
 * `auth_prefs` under three string keys.
 */
module Auth {
  import opened Wrappers

  const KEY_ID_TOKEN: string := "google_id_token"
  const KEY_USER_EMAIL: string := "user_email"
  const KEY_USER_NAME: string := "user_name"

  /** `SharedPreferences.Editor.putString`: a null value removes the key. */
  function PutString(prefs: map<string, string>, key: string, value: Option<string>): (p: map<string, string>)
    ensures key in p <==> value.Some?
    ensures value.Some? ==> p[key] == value.value
    ensures forall k :: k != key ==> (k in p <==> k in prefs) && (k in p ==> p[k] == prefs[k])
  {
    if value.Some? then prefs[key := value.value] else prefs - {key}
  }

  class TokenStore {
    /** The preferences file: key to stored string. */
    var prefs: map<string, string>

    constructor (prefs: map<string, string>)
      ensures this.prefs == prefs
    {
      this.prefs := prefs;
    }

    /** `getString(key, null)`. */
    function GetString(key: string): (r: Option<string>)
      reads this
      ensures r.Some? <==> key in prefs
      ensures r.Some? ==> r.value == prefs[key]
    {
      if key in prefs then Some(prefs[key]) else None
    }

    /** `getToken`: the stored id token, or null when signed out. */
    function GetToken(): (r: Option<string>)
      reads this
      ensures r.Some? <==> KEY_ID_TOKEN in prefs
      ensures r.Some? ==> r.value == prefs[KEY_ID_TOKEN]
    {
      GetString(KEY_ID_TOKEN)
    }

    /** Logged in exactly when a token is stored. */
    function IsLoggedIn(): (b: bool)
      reads this
      ensures b <==> KEY_ID_TOKEN in prefs
    {
      GetToken() != None
    }

    function GetUserEmail(): (r: Option<string>)
      reads this
      ensures r.Some? <==> KEY_USER_EMAIL in prefs
      ensures r.Some? ==> r.value == prefs[KEY_USER_EMAIL]
    {
      GetString(KEY_USER_EMAIL)
    }

    function GetUserName(): (r: Option<string>)
      reads this
      ensures r.Some? <==> KEY_USER_NAME in prefs
      ensures r.Some? ==> r.value == prefs[KEY_USER_NAME]
    {
      GetString(KEY_USER_NAME)
    }

    /** Store the three values in one edit; the token is never null, so the user is then logged in. */
    method SaveToken(idToken: string, email: Option<string>, name: Option<string>)
      modifies this
      ensures prefs == PutString(PutString(PutString(old(prefs), KEY_ID_TOKEN, Some(idToken)),
                                           KEY_USER_EMAIL, email), KEY_USER_NAME, name)
      ensures GetToken() == Some(idToken) && GetUserEmail() == email && GetUserName() == name
      ensures IsLoggedIn()
    {
      prefs := PutString(PutString(PutString(prefs, KEY_ID_TOKEN, Some(idToken)),
                                   KEY_USER_EMAIL, email), KEY_USER_NAME, name);
    }

    /** `edit().clear()`: nothing is stored afterwards. */
    method Clear()
      modifies this
      ensures prefs == map[]
      ensures GetToken() == None && GetUserEmail() == None && GetUserName() == None
      ensures !IsLoggedIn()
    {
      prefs := map[];
    }
  }
}
