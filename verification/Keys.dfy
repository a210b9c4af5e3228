/** The keys the services build in the one Redis store. */
module Keys {

  datatype Scene = Unknown | Register | Login | ResetPassword | DeleteUser

  function SceneName(scene: Scene): string {
    match scene
    case Unknown => "unknown"
    case Register => "register"
    case Login => "login"
    case ResetPassword => "reset_password"
    case DeleteUser => "delete_user"
  }

  /** What a key is about. */
  datatype Key =
    | Captcha(scene: Scene, mobile: string)
    | Interval(mobile: string)
    | VerifyCount(scene: Scene, mobile: string)
    | Lock(scene: Scene, mobile: string)
    | LoginFail(mobile: string)

  function Family(k: Key): string {
    match k
    case Captcha(_, _) => "sms:code:"
    case Interval(_) => "sms:interval:"
    case VerifyCount(_, _) => "sms:verify_count:"
    case Lock(_, _) => "sms:lock:"
    case LoginFail(_) => "login:fail:"
  }

  function Suffix(k: Key): string {
    match k
    case Captcha(scene, mobile) => SceneName(scene) + ":" + mobile
    case Interval(mobile) => mobile
    case VerifyCount(scene, mobile) => SceneName(scene) + ":" + mobile
    case Lock(scene, mobile) => SceneName(scene) + ":" + mobile
    case LoginFail(mobile) => mobile
  }

  /** The text of a key in the store. */
  function Text(k: Key): string {
    Family(k) + Suffix(k)
  }

  lemma FamiliesAreTold(k: Key)
    ensures |Text(k)| >= 9
    ensures k.LoginFail? ==> Text(k)[0] == 'l'
    ensures !k.LoginFail? ==> Text(k)[0] == 's'
    ensures k.Captcha? ==> Text(k)[4] == 'c'
    ensures k.Interval? ==> Text(k)[4] == 'i'
    ensures k.VerifyCount? ==> Text(k)[4] == 'v'
    ensures k.Lock? ==> Text(k)[4] == 'l'
  {
    hide Suffix;
    assert Text(k)[0] == Family(k)[0] && Text(k)[4] == Family(k)[4];
  }

  lemma ScenesAreTold(scene: Scene)
    ensures |SceneName(scene)| >= 5
    ensures scene.Unknown? ==> SceneName(scene)[0] == 'u'
    ensures scene.Register? ==> SceneName(scene)[0] == 'r' && SceneName(scene)[2] == 'g'
    ensures scene.Login? ==> SceneName(scene)[0] == 'l'
    ensures scene.ResetPassword? ==> SceneName(scene)[0] == 'r' && SceneName(scene)[2] == 's'
    ensures scene.DeleteUser? ==> SceneName(scene)[0] == 'd'
  {
  }

  lemma SceneAndMobileAreTold(s1: Scene, m1: string, s2: Scene, m2: string)
    requires SceneName(s1) + ":" + m1 == SceneName(s2) + ":" + m2
    ensures s1 == s2 && m1 == m2
  {
    var t1, t2 := SceneName(s1) + ":" + m1, SceneName(s2) + ":" + m2;
    ScenesAreTold(s1);
    ScenesAreTold(s2);
    hide SceneName;
    assert t1[0] == SceneName(s1)[0] && t1[2] == SceneName(s1)[2];
    assert t2[0] == SceneName(s2)[0] && t2[2] == SceneName(s2)[2];
    assert s1 == s2;
    assert t1[|SceneName(s1)| + 1..] == m1 && t2[|SceneName(s2)| + 1..] == m2;
  }

  /** Different keys never meet in the store, whatever the mobile strings contain. */
  lemma TextIsInjective(a: Key, b: Key)
    ensures Text(a) == Text(b) <==> a == b
  {
    if Text(a) == Text(b) {
      FamiliesAreTold(a);
      FamiliesAreTold(b);
      SameFamily(a, b);
      var n := |Family(a)|;
      assert Text(a)[n..] == Suffix(a) && Text(b)[n..] == Suffix(b);
      if a.Captcha? || a.VerifyCount? || a.Lock? {
        SceneAndMobileAreTold(a.scene, a.mobile, b.scene, b.mobile);
      }
    }
  }

  lemma SameFamily(a: Key, b: Key)
    requires a.Captcha? <==> b.Captcha?
    requires a.Interval? <==> b.Interval?
    requires a.VerifyCount? <==> b.VerifyCount?
    requires a.Lock? <==> b.Lock?
    ensures Family(a) == Family(b)
  {
  }
}
