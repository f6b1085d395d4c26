/**
 * The metadata half of `set_gps_location` in geotag.py: packing a DMS tuple into
 * three pyexiv2 rationals, and the read-merge-write of the fixed GPS tags into a
 * file's metadata, seen as a map from tag key to value.
 */
module Exif {
  import opened Wrappers
  import opened Coordinates

  /** `pyexiv2.Rational(numerator, denominator)`. */
  datatype Rational = Rational(num: real, den: int)

  /** The three rationals stored under GPSLatitude or GPSLongitude. */
  datatype RationalAngle = RationalAngle(first: Rational, second: Rational, third: Rational)

  function RationalValue(q: Rational): real
    requires q.den != 0
  {
    q.num / q.den as real
  }

  predicate WellFormed(a: RationalAngle)
  {
    a.first.den != 0 && a.second.den != 0 && a.third.den != 0
  }

  /** How a reader decodes the triple: degrees + minutes / 60 + seconds / 3600. */
  function Decode(a: RationalAngle): real
    requires WellFormed(a)
  {
    RationalValue(a.first) + RationalValue(a.second) / 60.0 + RationalValue(a.third) / 3600.0
  }

  /**
   * Degrees and minutes share the first slot over 60, the seconds go to the second
   * slot as a fraction of a minute, the third slot is 0/1.
   */
  function Pack(d: Dms): (a: RationalAngle)
    ensures WellFormed(a)
    ensures Decode(a) == DmsValue(d)
    ensures RationalValue(a.first) == DmsValue(d) - d.sec / 3600.0
    ensures RationalValue(a.second) == d.sec / 60.0
    ensures a.third.num == 0.0
  {
    RationalAngle(Rational((d.deg * 60 + d.min) as real, 60), Rational(d.sec * 100.0, 6000), Rational(0.0, 1))
  }

  /** The packed triple decodes to the magnitude of the original value within the rounding error. */
  lemma PackedWithinTolerance(value: real, loc: Hemispheres)
    ensures Abs(Decode(Pack(ToDeg(value, loc))) - Abs(value)) <= MAX_ANGLE_ERROR
  {
  }

  /** A metadata value as far as this model distinguishes them. */
  datatype Value =
    | Angle(angle: RationalAngle)
    | Ascii(text: string)
    | Long(n: int)
    | Moment(local: string)        // a datetime, as converted from the epoch time
    | Fraction(q: Rational)        // the altitude fraction
    | Other(raw: seq<int>)         // any tag this core neither reads nor writes

  const LATITUDE_KEY := "Exif.GPSInfo.GPSLatitude"
  const LATITUDE_REF_KEY := "Exif.GPSInfo.GPSLatitudeRef"
  const LONGITUDE_KEY := "Exif.GPSInfo.GPSLongitude"
  const LONGITUDE_REF_KEY := "Exif.GPSInfo.GPSLongitudeRef"
  const GPS_TAG_KEY := "Exif.Image.GPSTag"
  const MAP_DATUM_KEY := "Exif.GPSInfo.GPSMapDatum"
  const VERSION_ID_KEY := "Exif.GPSInfo.GPSVersionID"
  const DATE_TIME_KEY := "Exif.Image.DateTime"
  const ALTITUDE_KEY := "Exif.GPSInfo.GPSAltitude"

  const GPS_TAG := 654
  const MAP_DATUM := "WGS-84"
  const VERSION_ID := "2 0 0 0"

  /** The keys written on every call, whatever the altitude encoding does. */
  const ALWAYS_WRITTEN: set<string> :=
    {LATITUDE_KEY, LATITUDE_REF_KEY, LONGITUDE_KEY, LONGITUDE_REF_KEY,
     GPS_TAG_KEY, MAP_DATUM_KEY, VERSION_ID_KEY, DATE_TIME_KEY}

  /**
   * The metadata container `m` of one file: `read()` loads the stored map, each
   * item assignment updates it in place.
   */
  class ImageMetadata {
    var tags: map<string, Value>

    /** `pyexiv2.ImageMetadata(file_name)` followed by `read()`. */
    constructor Read(stored: map<string, Value>)
      ensures tags == stored
    {
      tags := stored;
    }

    /** `m[key] = v`. */
    method Set(key: string, v: Value)
      modifies this
      ensures tags == old(tags)[key := v]
    {
      tags := tags[key := v];
    }
  }

  /**
   * The map `set_gps_location` writes back, given the map it read, the coordinates,
   * the altitude encoder's result (None when it raised) and the converted time.
   */
  function GeoTagged(stored: map<string, Value>, lat: real, lng: real,
                     altitude: Option<Rational>, stamp: string): map<string, Value>
  {
    var r := stored[LATITUDE_KEY := Angle(Pack(ToDeg(lat, LATITUDE_LABELS)))]
                   [LATITUDE_REF_KEY := Ascii(ToDeg(lat, LATITUDE_LABELS).ref)]
                   [LONGITUDE_KEY := Angle(Pack(ToDeg(lng, LONGITUDE_LABELS)))]
                   [LONGITUDE_REF_KEY := Ascii(ToDeg(lng, LONGITUDE_LABELS).ref)]
                   [GPS_TAG_KEY := Long(GPS_TAG)]
                   [MAP_DATUM_KEY := Ascii(MAP_DATUM)]
                   [VERSION_ID_KEY := Ascii(VERSION_ID)]
                   [DATE_TIME_KEY := Moment(stamp)];
    match altitude
    case Some(q) => r[ALTITUDE_KEY := Fraction(q)]
    case None => r
  }

  /**
   * What `set_gps_location` writes: the packed coordinates and their references, the
   * fixed GPS tag, datum and version, the time, and the altitude only when it could be
   * encoded; every other key keeps the value that was read.
   */
  lemma GeoTaggedFields(stored: map<string, Value>, lat: real, lng: real,
                        altitude: Option<Rational>, stamp: string)
    ensures var r := GeoTagged(stored, lat, lng, altitude, stamp);
            && r.Keys == stored.Keys + ALWAYS_WRITTEN + (if altitude.Some? then {ALTITUDE_KEY} else {})
            && r[LATITUDE_KEY] == Angle(Pack(ToDeg(lat, LATITUDE_LABELS)))
            && r[LATITUDE_REF_KEY] == Ascii(Hemisphere(lat, LATITUDE_LABELS))
            && r[LONGITUDE_KEY] == Angle(Pack(ToDeg(lng, LONGITUDE_LABELS)))
            && r[LONGITUDE_REF_KEY] == Ascii(Hemisphere(lng, LONGITUDE_LABELS))
            && r[GPS_TAG_KEY] == Long(GPS_TAG)
            && r[MAP_DATUM_KEY] == Ascii(MAP_DATUM)
            && r[VERSION_ID_KEY] == Ascii(VERSION_ID)
            && r[DATE_TIME_KEY] == Moment(stamp)
            && (altitude.Some? ==> r[ALTITUDE_KEY] == Fraction(altitude.value))
            && (altitude.None? && ALTITUDE_KEY in stored ==> r[ALTITUDE_KEY] == stored[ALTITUDE_KEY])
            && (forall k :: k in stored && k !in ALWAYS_WRITTEN && k != ALTITUDE_KEY ==> r[k] == stored[k])
  {
  }

  /** `set_gps_location`: the map that `m.write()` persists. */
  method SetGpsLocation(stored: map<string, Value>, lat: real, lng: real,
                        altitude: Option<Rational>, stamp: string) returns (written: map<string, Value>)
    ensures written == GeoTagged(stored, lat, lng, altitude, stamp)
  {
    var latDeg := ToDeg(lat, LATITUDE_LABELS);
    var lngDeg := ToDeg(lng, LONGITUDE_LABELS);
    var exivLat := Pack(latDeg);
    var exivLng := Pack(lngDeg);
    var m := new ImageMetadata.Read(stored);
    m.Set(LATITUDE_KEY, Angle(exivLat));
    m.Set(LATITUDE_REF_KEY, Ascii(latDeg.ref));
    m.Set(LONGITUDE_KEY, Angle(exivLng));
    m.Set(LONGITUDE_REF_KEY, Ascii(lngDeg.ref));
    m.Set(GPS_TAG_KEY, Long(GPS_TAG));
    m.Set(MAP_DATUM_KEY, Ascii(MAP_DATUM));
    m.Set(VERSION_ID_KEY, Ascii(VERSION_ID));
    m.Set(DATE_TIME_KEY, Moment(stamp));
    if altitude.Some? {
      m.Set(ALTITUDE_KEY, Fraction(altitude.value));
    }
    written := m.tags;
  }

  /** Decoding the written latitude and longitude with their reference tags recovers the inputs. */
  lemma GeoTaggedRoundTrip(stored: map<string, Value>, lat: real, lng: real,
                           altitude: Option<Rational>, stamp: string)
    ensures var r := GeoTagged(stored, lat, lng, altitude, stamp);
            && r[LATITUDE_KEY].Angle? && WellFormed(r[LATITUDE_KEY].angle)
            && r[LONGITUDE_KEY].Angle? && WellFormed(r[LONGITUDE_KEY].angle)
            && Abs(ReadBack(r[LATITUDE_KEY].angle, r[LATITUDE_REF_KEY], LATITUDE_LABELS) - lat) <= MAX_ANGLE_ERROR
            && Abs(ReadBack(r[LONGITUDE_KEY].angle, r[LONGITUDE_REF_KEY], LONGITUDE_LABELS) - lng) <= MAX_ANGLE_ERROR
  {
    ReadBackToDeg(lat, LATITUDE_LABELS);
    ReadBackToDeg(lng, LONGITUDE_LABELS);
  }

  /** The signed angle a reader recovers from a rational triple and its reference tag. */
  function ReadBack(a: RationalAngle, ref: Value, loc: Hemispheres): real
    requires WellFormed(a)
  {
    if ref == Ascii(loc.negative) then -Decode(a) else Decode(a)
  }

  lemma ReadBackToDeg(value: real, loc: Hemispheres)
    requires loc.negative != loc.positive && loc.negative != "" && loc.positive != ""
    ensures Abs(ReadBack(Pack(ToDeg(value, loc)), Ascii(Hemisphere(value, loc)), loc) - value) <= MAX_ANGLE_ERROR
  {
    var d := ToDeg(value, loc);
    SignedReconstruction(value, loc);
    assert ReadBack(Pack(d), Ascii(d.ref), loc) == SignedValue(d, loc);
  }

  /** Tagging a file twice with the same fix leaves the same metadata as tagging it once. */
  lemma GeoTaggedIdempotent(stored: map<string, Value>, lat: real, lng: real,
                            altitude: Option<Rational>, stamp: string)
    ensures GeoTagged(GeoTagged(stored, lat, lng, altitude, stamp), lat, lng, altitude, stamp)
         == GeoTagged(stored, lat, lng, altitude, stamp)
  {
  }
}
