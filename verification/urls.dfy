/** `getPublicBookingUrl` of src/utils/urlUtils.ts: turns the relative path
    the API hands out into an absolute link. The page's origin
    (`window.location.origin`) is an argument here. */
module Urls {
  import opened Strings
  import opened Types
  import Api

  /** A path already starting with the origin is returned as it is;
      otherwise the origin is put in front, with a "/" between them unless
      the path already starts with one. */
  function PublicBookingUrl(origin: string, path: string): (url: string)
    ensures StartsWith(url, origin)
    ensures StartsWith(path, origin) ==> url == path
    ensures !StartsWith(path, origin) && StartsWith(path, "/") ==> url == origin + path
    ensures !StartsWith(path, origin) && !StartsWith(path, "/") ==> url == origin + "/" + path
  {
    if StartsWith(path, origin) then path
    else
      var normalized := if StartsWith(path, "/") then path else "/" + path;
      origin + normalized
  }

  /** Normalising a URL twice is normalising it once. */
  lemma PublicBookingUrlIdempotent(origin: string, path: string)
    ensures PublicBookingUrl(origin, PublicBookingUrl(origin, path)) == PublicBookingUrl(origin, path)
  {
  }

  /** The example of the function's documentation: the path
      "/booking/user_123" becomes the origin followed by that path, for any
      origin that does not itself start with "/" (a scheme comes first in
      every real origin). */
  lemma DocumentedExample(origin: string)
    requires |origin| > 0 && origin[0] != '/'
    ensures PublicBookingUrl(origin, "/booking/user_123") == origin + "/booking/user_123"
  {
    assert !StartsWith("/booking/user_123", origin) by {
      assert "/booking/user_123"[0] == '/';
    }
  }

  /** The public link page combines the API's relative URL with the origin:
      for a registered business the result is the origin, "/booking/" and
      the business id. */
  lemma PublicLinkOfRegisteredBusiness(s: Api.Store, userId: UserId, origin: string)
    requires |origin| > 0 && origin[0] != '/'
    requires exists i :: 0 <= i < |s.users| && s.users[i].id == userId
    ensures Api.GetPublicUrl(s, userId).Success?
    ensures PublicBookingUrl(origin, Api.GetPublicUrl(s, userId).data) == origin + "/booking/" + userId
  {
    var path := Api.GetPublicUrl(s, userId).data;
    assert path[0] == '/';
    assert !StartsWith(path, origin);
    assert StartsWith(path, "/");
  }
}
