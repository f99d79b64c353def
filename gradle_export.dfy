/**
 * The Android manifest fragments of platform/android/export/gradle_export_util.h:
 * the orientation value and label maps, `bool_to_string`, and the
 * screen-size, XR-feature and activity tags. Preset and project-setting
 * lookups are parameters.
 */
module GradleExport {
  import Text
  import opened Wrappers
  import opened OsCore

  /** `_get_android_orientation_value`: the `android:screenOrientation` number. */
  function OrientationValue(o: ScreenOrientation): (v: int)
    ensures v == 0 <==> o == Landscape
  {
    match o
    case Portrait => 1
    case ReverseLandscape => 8
    case ReversePortrait => 9
    case SensorLandscape => 11
    case SensorPortrait => 12
    case Sensor => 13
    case Landscape => 0
  }

  /** `_get_android_orientation_label`: the `android:screenOrientation` name. */
  function OrientationLabel(o: ScreenOrientation): (s: string)
    ensures s == "landscape" <==> o == Landscape
  {
    match o
    case Portrait => "portrait"
    case ReverseLandscape => "reverseLandscape"
    case ReversePortrait => "reversePortrait"
    case SensorLandscape => "userLandscape"
    case SensorPortrait => "userPortrait"
    case Sensor => "fullUser"
    case Landscape => "landscape"
  }

  /** The Android platform's own pairing of `screenOrientation` numbers and names. */
  function AndroidOrientationName(v: int): string
  {
    if v == 1 then "portrait"
    else if v == 8 then "reverseLandscape"
    else if v == 9 then "reversePortrait"
    else if v == 11 then "userLandscape"
    else if v == 12 then "userPortrait"
    else if v == 13 then "fullUser"
    else "landscape"
  }

  /** The value and the label maps agree case by case, and each separates the orientations. */
  lemma OrientationMapsAgree(o: ScreenOrientation, p: ScreenOrientation)
    ensures AndroidOrientationName(OrientationValue(o)) == OrientationLabel(o)
    ensures OrientationValue(o) == OrientationValue(p) <==> o == p
    ensures OrientationLabel(o) == OrientationLabel(p) <==> o == p
  {
  }

  /** The orientation setting, read through `get_screen_orientation_from_string`, gives the label of its own name. */
  lemma SettingLabel(o: ScreenOrientation)
    ensures OrientationLabel(ScreenOrientationFromString(OrientationName(o))) == OrientationLabel(o)
  {
    OrientationRoundTrip(o, OrientationName(o));
  }

  /** `bool_to_string`. */
  function BoolToString(v: bool): (s: string)
    ensures s == "true" <==> v
    ensures s == "false" <==> !v
  {
    if v then "true" else "false"
  }

  // ---- Screen sizes ----

  const SIZES: seq<string> := ["small", "normal", "large", "xlarge"]
  const SCREENS_OPEN := "    <supports-screens \n        tools:node=\"replace\""
  const SCREENS_CLOSE := " />\n"

  function SizeEntry(size: string, supported: bool): string
  {
    "\n        android:" + size + "Screens=\"" + BoolToString(supported) + "\""
  }

  /** The entries for the first `n` sizes. */
  function SizeEntries(supported: seq<bool>, n: nat): string
    requires n <= |SIZES| && |supported| == |SIZES|
  {
    if n == 0 then "" else SizeEntries(supported, n - 1) + SizeEntry(SIZES[n - 1], supported[n - 1])
  }

  /**
   * `_get_screen_sizes_tag`, with `supported[i]` the preset's
   * `screen/support_<size>` flag for the size `SIZES[i]`.
   */
  method ScreenSizesTag(supported: seq<bool>) returns (tag: string)
    requires |supported| == |SIZES|
    ensures tag == SCREENS_OPEN + SizeEntries(supported, |SIZES|) + SCREENS_CLOSE
  {
    tag := SCREENS_OPEN;
    var i := 0;
    while i < |SIZES|
      invariant 0 <= i <= |SIZES|
      invariant tag == SCREENS_OPEN + SizeEntries(supported, i)
    {
      var entry := SizeEntry(SIZES[i], supported[i]);
      assert SizeEntries(supported, i + 1) == SizeEntries(supported, i) + entry;
      Associative(SCREENS_OPEN, SizeEntries(supported, i), entry);
      tag := tag + entry;
      i := i + 1;
    }
    tag := tag + SCREENS_CLOSE;
  }

  /** The entries come in the order small, normal, large, xlarge, each with its own flag. */
  lemma SizeEntriesInOrder(supported: seq<bool>)
    requires |supported| == |SIZES|
    ensures SizeEntries(supported, |SIZES|)
      == SizeEntry("small", supported[0]) + SizeEntry("normal", supported[1])
       + SizeEntry("large", supported[2]) + SizeEntry("xlarge", supported[3])
  {
    assert SizeEntries(supported, 1) == SizeEntry("small", supported[0]);
    assert SizeEntries(supported, 2) == SizeEntries(supported, 1) + SizeEntry("normal", supported[1]);
    assert SizeEntries(supported, 3) == SizeEntries(supported, 2) + SizeEntry("large", supported[2]);
  }

  // ---- XR features ----

  const FEATURE_OPEN := "    <uses-feature tools:node=\"replace\" android:name=\""
  const REQUIRED_OPEN := "\" android:required=\""
  const QUOTE := "\""
  const TAG_END := " />\n"
  const HEADTRACKING := "android.hardware.vr.headtracking"
  const HEADTRACKING_VERSION := " android:version=\"1\""
  const HANDTRACKING := "oculus.software.handtracking"

  /** The `uses-feature` line whose `required` attribute says whether the feature is required. */
  function UsesFeature(feature: string, extra: string, required: bool): string
  {
    FEATURE_OPEN + feature + REQUIRED_OPEN + BoolToString(required) + QUOTE + extra + TAG_END
  }

  /** A preset's feature index: 1 asks for the feature as optional, 2 as required, anything else not at all. */
  function FeatureRequest(index: int): (r: Option<bool>)
    ensures r.Some? <==> index == 1 || index == 2
    ensures r.Some? ==> (r.value <==> index == 2)
  {
    if index == 1 then Some(false) else if index == 2 then Some(true) else None
  }

  function FeatureLine(feature: string, extra: string, index: int): string
  {
    match FeatureRequest(index)
    case Some(required) => UsesFeature(feature, extra, required)
    case None => ""
  }

  /**
   * `_get_xr_features_tag`: nothing unless the XR mode is 1; then the head
   * tracking line, then the hand tracking line, each present only when its
   * index asks for the feature and marked required only for index 2.
   */
  function XrFeaturesTag(xrMode: int, dofIndex: int, handTrackingIndex: int): (tag: string)
    ensures xrMode != 1 ==> tag == ""
    ensures xrMode == 1 ==>
      tag == FeatureLine(HEADTRACKING, HEADTRACKING_VERSION, dofIndex) + FeatureLine(HANDTRACKING, "", handTrackingIndex)
  {
    if xrMode == 1 then
      var dof :=
        if dofIndex == 1 then
          FEATURE_OPEN + HEADTRACKING + REQUIRED_OPEN + "false" + QUOTE + HEADTRACKING_VERSION + TAG_END
        else if dofIndex == 2 then
          FEATURE_OPEN + HEADTRACKING + REQUIRED_OPEN + "true" + QUOTE + HEADTRACKING_VERSION + TAG_END
        else "";
      var hand :=
        if handTrackingIndex == 1 then
          FEATURE_OPEN + HANDTRACKING + REQUIRED_OPEN + "false" + QUOTE + "" + TAG_END
        else if handTrackingIndex == 2 then
          FEATURE_OPEN + HANDTRACKING + REQUIRED_OPEN + "true" + QUOTE + "" + TAG_END
        else "";
      dof + hand
    else ""
  }

  /** With XR on, the tag is empty exactly when neither feature is asked for. */
  lemma XrFeaturesEmpty(dofIndex: int, handTrackingIndex: int)
    ensures XrFeaturesTag(1, dofIndex, handTrackingIndex) == ""
      <==> FeatureRequest(dofIndex).None? && FeatureRequest(handTrackingIndex).None?
  {
    if FeatureRequest(dofIndex).Some? {
      assert |FeatureLine(HEADTRACKING, HEADTRACKING_VERSION, dofIndex)| > 0;
    }
    if FeatureRequest(handTrackingIndex).Some? {
      assert |FeatureLine(HANDTRACKING, "", handTrackingIndex)| > 0;
    }
  }

  // ---- Activity ----

  const FOCUS_REPLACE_OPEN := "            <meta-data tools:node=\"replace\" android:name=\"com.oculus.vr.focusaware\" android:value=\""
  const FOCUS_REMOVE := "            <meta-data tools:node=\"remove\" android:name=\"com.oculus.vr.focusaware\" />\n"
  const ACTIVITY_CLOSE := "        </activity>\n"

  function ActivityOpen(orientation: string): string
  {
    "        <activity android:name=\"com.godot.game.GodotApp\" tools:replace=\"android:screenOrientation\" android:screenOrientation=\""
      + orientation + "\">\n"
  }

  /**
   * `_get_activity_tag`, with the project's orientation setting and the
   * preset's XR mode and focus-awareness flag: the setting is read as an
   * orientation and written as that orientation's Android label.
   */
  function ActivityTag(xrMode: int, orientationSetting: string, focusAwareness: bool): (tag: string)
    ensures tag == ActivityOpen(OrientationLabel(ScreenOrientationFromString(orientationSetting)))
      + FocusAwareEntry(xrMode, focusAwareness) + ACTIVITY_CLOSE
  {
    var orientation := OrientationLabel(ScreenOrientationFromString(orientationSetting));
    ActivityText(xrMode, orientation, focusAwareness)
  }

  /** The activity tag for an orientation label. */
  function ActivityText(xrMode: int, orientation: string, focusAwareness: bool): string
  {
    var text := ActivityOpen(orientation);
    var meta := if xrMode == 1 then FOCUS_REPLACE_OPEN + BoolToString(focusAwareness) + QUOTE + TAG_END
      else FOCUS_REMOVE;
    text + meta + ACTIVITY_CLOSE
  }

  /** The focus-aware entry: replaced with the preset's flag when XR is on, removed otherwise. */
  function FocusAwareEntry(xrMode: int, focusAwareness: bool): (entry: string)
    ensures xrMode != 1 <==> entry == FOCUS_REMOVE
  {
    if xrMode == 1 then
      assert |FOCUS_REPLACE_OPEN| > |FOCUS_REMOVE|;
      FOCUS_REPLACE_OPEN + BoolToString(focusAwareness) + QUOTE + TAG_END
    else FOCUS_REMOVE
  }

  lemma Associative(a: string, b: string, c: string)
    ensures a + b + c == a + (b + c)
  {
  }

  /**
   * The activity tag is the activity opening with the orientation label, the
   * focus-aware entry, and the activity's closing tag, in that order.
   */
  lemma ActivityTextShape(xrMode: int, orientation: string, focusAwareness: bool)
    ensures ActivityText(xrMode, orientation, focusAwareness)
      == ActivityOpen(orientation) + FocusAwareEntry(xrMode, focusAwareness) + ACTIVITY_CLOSE
  {
  }
}
