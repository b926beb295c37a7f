/** The class/keyword heuristic of the notification manager: a visible window
    is a notification surface when its class name contains a known
    notification-host class name, or its title contains a notification
    keyword, both compared without regard to case. */
module Classifier {
  import opened Text
  import opened Windows

  /** The known notification-host window classes, in the source's order. */
  const NotificationClasses: seq<string> := [
    "Windows.UI.Core.CoreWindow",
    "ToastWin32Window",
    "ToastHost",
    "NotificationHost",
    "Windows.ApplicationModel.Core.CoreApplicationView",
    "Shell_TrayWnd",
    "NotifyIconWnd32"
  ]

  /** The title keywords, in the source's order. */
  const NotificationKeywords: seq<string> := ["notification", "toast", "alert", "popup"]

  /** `patterns.Any(p => s.Contains(p, OrdinalIgnoreCase))`. */
  predicate AnyContainedIgnoreCase(s: string, patterns: seq<string>)
  {
    if |patterns| == 0 then false
    else ContainsIgnoreCase(s, patterns[0]) || AnyContainedIgnoreCase(s, patterns[1..])
  }

  lemma {:induction false} AnyContainedIgnoreCaseIff(s: string, patterns: seq<string>)
    ensures AnyContainedIgnoreCase(s, patterns) <==>
            exists i :: 0 <= i < |patterns| && ContainsIgnoreCase(s, patterns[i])
  {
    if |patterns| > 0 {
      AnyContainedIgnoreCaseIff(s, patterns[1..]);
      if exists i :: 0 <= i < |patterns| && ContainsIgnoreCase(s, patterns[i]) {
        var i :| 0 <= i < |patterns| && ContainsIgnoreCase(s, patterns[i]);
        if i > 0 {
          assert patterns[1..][i - 1] == patterns[i];
        }
      }
    }
  }

  /** `IsNotificationWindow`: visibility first, then the class allowlist,
      then the title keywords. */
  predicate IsNotificationWindow(w: WindowFacts)
  {
    ClassifyWith(w, NotificationClasses, NotificationKeywords)
  }

  /** The classifier over given allowlists. */
  predicate ClassifyWith(w: WindowFacts, classes: seq<string>, keywords: seq<string>)
  {
    if !w.visible then false
    else if AnyContainedIgnoreCase(w.className, classes) then true
    else AnyContainedIgnoreCase(GetWindowTitle(w), keywords)
  }

  lemma ClassifyWithIff(w: WindowFacts, classes: seq<string>, keywords: seq<string>)
    ensures !w.visible ==> !ClassifyWith(w, classes, keywords)
    ensures w.visible ==>
      (ClassifyWith(w, classes, keywords) <==>
        (exists i :: 0 <= i < |classes| && ContainsIgnoreCase(w.className, classes[i]))
        || (exists k :: 0 <= k < |keywords| && ContainsIgnoreCase(GetWindowTitle(w), keywords[k])))
  {
    AnyContainedIgnoreCaseIff(w.className, classes);
    AnyContainedIgnoreCaseIff(GetWindowTitle(w), keywords);
  }

  /** The classifier in declarative terms: never for an invisible window;
      for a visible one, exactly when the class name contains one of the
      seven class names or the title contains one of the four keywords, each
      up to ASCII case. */
  lemma IsNotificationWindowIff(w: WindowFacts)
    ensures !w.visible ==> !IsNotificationWindow(w)
    ensures w.visible ==>
      (IsNotificationWindow(w) <==>
        (exists i :: 0 <= i < |NotificationClasses| && ContainsIgnoreCase(w.className, NotificationClasses[i]))
        || (exists k :: 0 <= k < |NotificationKeywords| && ContainsIgnoreCase(GetWindowTitle(w), NotificationKeywords[k])))
  {
    ClassifyWithIff(w, NotificationClasses, NotificationKeywords);
  }

  /** A window whose reported title length is zero is judged by its class
      name alone, whatever text it carries. */
  lemma ZeroLengthTitleIgnored(w: WindowFacts)
    requires w.textLength == 0
    ensures IsNotificationWindow(w) <==> w.visible && AnyContainedIgnoreCase(w.className, NotificationClasses)
  {
    assert !ContainsIgnoreCase("", "notification");
    assert !ContainsIgnoreCase("", "toast");
    assert !ContainsIgnoreCase("", "alert");
    assert !ContainsIgnoreCase("", "popup");
    AnyContainedIgnoreCaseIff("", NotificationKeywords);
  }

  /** Example: a visible toast host is classified whatever the case of its
      class name; the same window hidden is not. */
  lemma ClassNameExample()
    ensures IsNotificationWindow(WindowFacts(1, "toasthost", 0, "", 7, Rect(0, 0, 0, 0), true))
    ensures !IsNotificationWindow(WindowFacts(1, "toasthost", 0, "", 7, Rect(0, 0, 0, 0), false))
  {
    var a := WindowFacts(1, "toasthost", 0, "", 7, Rect(0, 0, 0, 0), true);
    assert OccursIgnoringCaseAt(a.className, NotificationClasses[2], 0);
    ContainsIgnoreCaseIffOccurs(a.className, NotificationClasses[2]);
    AnyContainedIgnoreCaseIff(a.className, NotificationClasses);
  }

  /** Example: a visible window titled "New ALERT" is classified by its title. */
  lemma TitleExample()
    ensures IsNotificationWindow(WindowFacts(2, "Chrome_WidgetWin_1", 9, "New ALERT", 7, Rect(0, 0, 0, 0), true))
  {
    var b := WindowFacts(2, "Chrome_WidgetWin_1", 9, "New ALERT", 7, Rect(0, 0, 0, 0), true);
    assert GetWindowTitle(b) == "New ALERT";
    assert OccursIgnoringCaseAt("New ALERT", NotificationKeywords[2], 4);
    ContainsIgnoreCaseIffOccurs("New ALERT", NotificationKeywords[2]);
    AnyContainedIgnoreCaseIff("New ALERT", NotificationKeywords);
  }
}
